/** The bits that stand for deflate's tokens under any two sets of code lengths, and what inflate makes of them: decoding a
    block's bits gives the bytes its tokens stand for. */
module TokenBits {
  import opened Octets
  import opened Bits
  import opened CanonicalCode
  import opened TableCells
  import opened InflateTable
  import opened Lz77
  import opened InflateSpec

  const END_BLOCK := 256
  const LITERALS := 256
  const LENGTH_CODES := 29
  const D_CODES := 30

  // ----- which symbol, and which extra bits

  /** The last of the first k bases that is not above v. */
  function LastBase(base: seq<nat>, v: nat, k: nat): (i: nat)
    requires 0 < k <= |base| && base[0] <= v
    ensures i < k && base[i] <= v && (i + 1 < k ==> v < base[i + 1])
  {
    if k == 1 || base[k - 1] <= v then k - 1 else LastBase(base, v, k - 1)
  }

  /** _length_code, for a match of lc + 3 bytes. */
  function LengthCode(lc: nat): (i: nat)
    ensures i < LENGTH_CODES
  {
    LastBase(LBASE, lc + MIN_MATCH, LENGTH_CODES)
  }

  /** What the base of its code leaves of a length, and how many bits are for that. */
  function LengthRest(lc: nat): nat
  {
    lc + MIN_MATCH - LBASE[LengthCode(lc)]
  }

  function LengthBits(lc: nat): nat
  {
    Extra(LEXT[LengthCode(lc)])
  }

  function Extra(op: nat): nat { op % 16 }

  /** d_code, for a distance. */
  function DistCode(dist: nat): (j: nat)
    requires dist >= 1
    ensures j < D_CODES
  {
    LastBase(DBASE, dist, D_CODES)
  }

  function DistRest(dist: nat): nat
    requires dist >= 1
  {
    dist - DBASE[DistCode(dist)]
  }

  function DistBits(dist: nat): nat
    requires dist >= 1
  {
    Extra(DEXT[DistCode(dist)])
  }

  /** How many extra bits a length code has. */
  lemma LengthExt(i: nat)
    requires i < LENGTH_CODES
    ensures LEXT[i] == 16 + if i < 8 || i == 28 then 0 else i / 4 - 1
  {
  }

  /** The bases of lengths: one for each of the first 8, then four for each power of 2, and one for the longest match. */
  function LengthBaseOf(i: nat): nat
  {
    if i == LENGTH_CODES - 1 then MAX_MATCH
    else if i < 8 then i + 3
    else 3 + (4 + i % 4) * SmallPow(i / 4 - 1)
  }

  lemma LengthBase(i: nat)
    requires i < LENGTH_CODES
    ensures LBASE[i] == LengthBaseOf(i)
  {
  }

  /** The gap between two bases of lengths: all that the extra bits of the first can make up; the longest match, which has a
      base of its own, could be made up from the base before it. */
  lemma LengthGap(i: nat)
    requires i < LENGTH_CODES - 1
    ensures LengthBaseOf(i + 1) - LengthBaseOf(i)
            == SmallPow(if i < 8 then 0 else i / 4 - 1) - (if i == LENGTH_CODES - 2 then 1 else 0)
  {
    hide SmallPow;
    LastPower();
    SomePowers();
    if 8 <= i < LENGTH_CODES - 2 { WithinPower(i); }
  }

  lemma WithinPower(i: nat)
    requires 8 <= i < LENGTH_CODES - 2
    ensures LengthBaseOf(i + 1) == LengthBaseOf(i) + SmallPow(i / 4 - 1)
  {
    hide SmallPow;
    var k := i / 4 - 1;
    if i % 4 == 3 {
      Doubles(k);
      assert (i + 1) / 4 - 1 == k + 1;
    } else {
      assert (i + 1) / 4 - 1 == k && (i + 1) % 4 == i % 4 + 1;
      assert (4 + i % 4 + 1) * SmallPow(k) == (4 + i % 4) * SmallPow(k) + SmallPow(k);
    }
  }

  lemma SomePowers()
    ensures SmallPow(1) == 2 && SmallPow(5) == 32
  {
  }

  lemma DistExt(i: nat)
    requires i < D_CODES
    ensures DEXT[i] == 16 + if i < 4 then 0 else i / 2 - 1
  {
  }

  /** The bases of distances: two for each power of 2. */
  function BaseOf(j: nat): nat
  {
    if j < 2 then j + 1 else 1 + (2 + j % 2) * SmallPow(j / 2 - 1)
  }

  lemma DistBase(j: nat)
    requires j < D_CODES
    ensures DBASE[j] == BaseOf(j)
  {
  }

  /** What each symbol of a block stands for, as section 3.2.5 of RFC 1951 lists it: literals, the end, lengths, two spare. */
  lemma LengthSymbol(s: nat, bits: nat)
    requires s < 288
    ensures var e := Meaning(Lens, s, bits);
            && e.bits == bits && (s < LITERALS ==> IsLiteral(e) && e.val == s) && (s == END_BLOCK ==> IsEnd(e))
            && (END_BLOCK < s <= END_BLOCK + LENGTH_CODES ==>
                  var i := s - END_BLOCK - 1;
                  IsLength(e) && e.val == LengthBaseOf(i) && e.op == 16 + if i < 8 || i == 28 then 0 else i / 4 - 1)
            && (s > END_BLOCK + LENGTH_CODES ==> IsInvalid(e))
  {
    hide Pow2, LengthBaseOf, IsLength;
    if s > END_BLOCK {
      var i := s - END_BLOCK - 1;
      if i < LENGTH_CODES {
        LengthBase(i);
        LengthExt(i);
        LengthFits(i, Meaning(Lens, s, bits));
      } else {
        Spare(i);
      }
    }
  }

  lemma LengthFits(i: nat, e: Code)
    requires i < LENGTH_CODES && e.op == LEXT[i] && e.val == LBASE[i]
    ensures IsLength(e)
  {
    hide Pow2;
    LengthExt(i);
    LengthEntry(i);
  }

  lemma Spare(i: nat)
    requires 29 <= i < 31
    ensures LEXT[i] in [77, 202]
  {
  }

  /** And each distance symbol: 30 distances, and two spare. */
  lemma DistSymbol(s: nat, bits: nat)
    requires s < 32
    ensures var e := Meaning(Dists, s, bits);
            && e.bits == bits
            && (s < D_CODES ==> IsDistance(e) && e.val == BaseOf(s) && e.op == 16 + if s < 4 then 0 else s / 2 - 1)
            && (s >= D_CODES ==> IsInvalid(e))
  {
    hide BaseOf;
    DistTable(s);
    if s < D_CODES {
      DistBase(s);
      DistExt(s);
    } else {
      SpareDist(s);
    }
  }

  lemma SpareDist(s: nat)
    requires 30 <= s < 32
    ensures DEXT[s] == 64
  {
  }

  /** 2 to the k, for k up to 13. */
  function SmallPow(k: nat): nat
  {
    if k <= 13 then [1, 2, 4, 8, 16, 32, 64, 128, 256, 512, 1024, 2048, 4096, 8192][k] else 0
  }

  lemma {:induction false} SmallPowIs(k: nat)
    requires k <= 13
    ensures SmallPow(k) == Pow2(k)
  {
    if k > 0 { SmallPowIs(k - 1); }
  }

  /** The extra bits of a length are enough for what its base leaves. */
  lemma LengthExtra(lc: nat)
    requires lc <= MAX_MATCH - MIN_MATCH
    ensures LEXT[LengthCode(lc)] == 16 + LengthBits(lc) && LengthBits(lc) <= 5 && LengthRest(lc) < Pow2(LengthBits(lc))
  {
    hide Pow2, SmallPow, LengthCode, LengthRest;
    LengthExt(LengthCode(lc));
    LengthAround(lc);
    LastPower();
    SmallPowIs(LengthBits(lc));
  }

  lemma LengthAround(lc: nat)
    requires lc <= MAX_MATCH - MIN_MATCH
    ensures var i := LengthCode(lc); LengthRest(lc) < if i == 28 then 1 else SmallPow(if i < 8 then 0 else i / 4 - 1)
  {
    hide SmallPow, LengthBaseOf;
    var i := LengthCode(lc);
    LengthBase(i);
    if i < 28 {
      LengthGap(i);
      LengthBase(i + 1);
    }
  }

  lemma DistExtra(dist: nat)
    requires 1 <= dist <= 32768
    ensures DEXT[DistCode(dist)] == 16 + DistBits(dist) && DistBits(dist) <= 13 && DistRest(dist) < Pow2(DistBits(dist))
  {
    hide Pow2, SmallPow, BaseOf, DistCode, DistRest;
    var j := DistCode(dist);
    DistExt(j);
    SmallPowIs(DistBits(dist));
    DistAround(dist);
    if j < 29 { BaseGap(j); } else { LastBaseOf(); }
  }

  lemma DistAround(dist: nat)
    requires dist >= 1
    ensures var j := DistCode(dist);
            BaseOf(j) <= dist && DistRest(dist) == dist - BaseOf(j) && (j + 1 < D_CODES ==> dist < BaseOf(j + 1))
  {
    hide BaseOf;
    var j := DistCode(dist);
    DistBase(j);
    if j + 1 < D_CODES { DistBase(j + 1); }
  }

  lemma BaseGap(j: nat)
    requires j < D_CODES - 1
    ensures BaseOf(j + 1) == BaseOf(j) + SmallPow(if j < 4 then 0 else j / 2 - 1)
  {
    hide SmallPow;
    LastPower();
    if j % 2 == 1 && j >= 2 { Doubles(j / 2 - 1); }
  }

  lemma LastBaseOf()
    ensures BaseOf(29) == 24577 && SmallPow(13) == 8192
  {
    hide SmallPow;
    LastPower();
    Doubles(12);
  }

  lemma LastPower()
    ensures SmallPow(0) == 1 && SmallPow(13) == 8192
  {
  }

  lemma Doubles(k: nat)
    requires k < 13
    ensures SmallPow(k + 1) == 2 * SmallPow(k)
  {
    SmallPowIs(k);
    SmallPowIs(k + 1);
  }

  // ----- the bits

  /** A code, its first bit lowest, in front of the bits rest. */
  function CodeThen(lens: seq<nat>, s: nat, rest: nat): nat
    requires s < |lens|
  {
    Huff(lens, s) + Pow2(lens[s]) * rest
  }

  /** k extra bits x in front of the bits rest. */
  function ExtraThen(x: nat, k: nat, rest: nat): nat
  {
    x + Pow2(k) * rest
  }

  /** The symbols that the token takes have codes. */
  predicate HasCodes(lens: seq<nat>, dists: seq<nat>, t: Token)
  {
    if t.dist == 0 then t.lc < |lens| && lens[t.lc] > 0
    else
      var i, j := LITERALS + 1 + LengthCode(t.lc), DistCode(t.dist);
      i < |lens| && lens[i] > 0 && j < |dists| && dists[j] > 0
  }

  /** compress_block, for one token: a literal; or a length code, its extra bits, a distance code and its extra bits. */
  function TokenThen(lens: seq<nat>, dists: seq<nat>, t: Token, rest: nat): nat
    requires HasCodes(lens, dists, t)
  {
    if t.dist == 0 then CodeThen(lens, t.lc, rest)
    else
      CodeThen(lens, LITERALS + 1 + LengthCode(t.lc), ExtraThen(LengthRest(t.lc), LengthBits(t.lc),
        CodeThen(dists, DistCode(t.dist), ExtraThen(DistRest(t.dist), DistBits(t.dist), rest))))
  }

  function TokenSize(lens: seq<nat>, dists: seq<nat>, t: Token): nat
    requires HasCodes(lens, dists, t)
  {
    if t.dist == 0 then lens[t.lc]
    else lens[LITERALS + 1 + LengthCode(t.lc)] + LengthBits(t.lc) + dists[DistCode(t.dist)] + DistBits(t.dist)
  }

  ghost predicate AllCoded(lens: seq<nat>, dists: seq<nat>, ts: seq<Token>)
  {
    |lens| > END_BLOCK && lens[END_BLOCK] > 0 && forall i :: 0 <= i < |ts| ==> HasCodes(lens, dists, ts[i])
  }

  /** compress_block: token after token, and the end of the block, in front of the bits rest. */
  function BlockThen(lens: seq<nat>, dists: seq<nat>, ts: seq<Token>, rest: nat): nat
    requires AllCoded(lens, dists, ts)
  {
    if ts == [] then CodeThen(lens, END_BLOCK, rest)
    else TokenThen(lens, dists, ts[0], BlockThen(lens, dists, ts[1..], rest))
  }

  function BlockSize(lens: seq<nat>, dists: seq<nat>, ts: seq<Token>): nat
    requires AllCoded(lens, dists, ts)
  {
    if ts == [] then lens[END_BLOCK] else TokenSize(lens, dists, ts[0]) + BlockSize(lens, dists, ts[1..])
  }

  // ----- what the decoder makes of them

  /** The decoder's bytes are numbers. */
  function AsBytes(s: seq<octet>): (r: seq<bv8>)
    ensures |r| == |s|
  {
    seq(|s|, i requires 0 <= i < |s| => Byte(s[i]))
  }

  lemma {:induction false} CopyBytes(out: seq<octet>, dist: nat, n: nat)
    requires 1 <= dist <= |out|
    ensures AsBytes(CopyBack(out, dist, n)) == CopyBack(AsBytes(out), dist, n)
    decreases n
  {
    hide Byte;
    if n > 0 {
      OneMoreByte(out, out[|out| - dist]);
      CopyBytes(out + [out[|out| - dist]], dist, n - 1);
    }
  }

  lemma OneMoreByte(out: seq<octet>, c: octet)
    ensures AsBytes(out + [c]) == AsBytes(out) + [Byte(c)]
  {
    hide Byte;
  }

  /** In front of the bits rest there is the code of s, and nothing else. */
  lemma CodeFront(lens: seq<nat>, s: nat, rest: nat)
    requires s < |lens| && lens[s] > 0
    ensures Spells(lens, CodeThen(lens, s, rest), s) && Hi(CodeThen(lens, s, rest), lens[s]) == rest
  {
    hide Pow2, CodeOf, Rev;
    ExtraFront(Huff(lens, s), lens[s], rest);
  }

  lemma ExtraFront(x: nat, k: nat, rest: nat)
    requires x < Pow2(k)
    ensures Lo(ExtraThen(x, k, rest), k) == x && Hi(ExtraThen(x, k, rest), k) == rest
  {
    hide Pow2;
    ModPlus(x, Pow2(k), rest);
    SmallMod(x, Pow2(k));
  }

  /** The tables of a block. */
  ghost predicate TablesFor(lencode: seq<Code>, lenbits: nat, distcode: seq<Code>, distbits: nat, lens: seq<nat>, dists: seq<nat>)
  {
    Decodes(lencode, lenbits, Lens, lens) && Decodes(distcode, distbits, Dists, dists) && LengthsOk(lens) && LengthsOk(dists)
  }

  /** The look-up finds the symbol that stands in front. */
  lemma LookFront(table: seq<Code>, root: nat, typ: CodeType, lens: seq<nat>, s: nat, rest: nat)
    requires Decodes(table, root, typ, lens) && s < |lens| && lens[s] > 0
    ensures s < MostSymbols(typ) && Entry(table, root, CodeThen(lens, s, rest)) == Meaning(typ, s, lens[s])
    ensures Hi(CodeThen(lens, s, rest), lens[s]) == rest
  {
    hide Spells, Finds, Meaning, Entry, CodeThen, Hi;
    var h := CodeThen(lens, s, rest);
    CodeFront(lens, s, rest);
    MeaningNoLink(typ, s, lens[s]);
    assert Finds(table, root, h, Meaning(typ, s, lens[s]));
    FindsEntry(table, root, h, Meaning(typ, s, lens[s]));
  }

  /** Between symbols: the unread bits, and all output. */
  function At(n: nat, t: int, out: seq<octet>): State { State(LEN, 0, 0, 0, n, t, out) }

  /** A literal. */
  lemma LiteralBack(lencode: seq<Code>, lenbits: nat, distcode: seq<Code>, distbits: nat, lens: seq<nat>, dists: seq<nat>,
                    c: nat, rest: nat, t: int, out: seq<octet>)
    requires TablesFor(lencode, lenbits, distcode, distbits, lens, dists) && c < 256 && c < |lens| && lens[c] > 0
    ensures Iterate(lencode, lenbits, distcode, distbits, At(CodeThen(lens, c, rest), t, out), 2) ==
            At(rest, t - lens[c], out + [c])
  {
    hide Entry, Hi, CodeThen, Iterate, Decodes;
    LookFront(lencode, lenbits, Lens, lens, c, rest);
    LiteralSteps(lencode, lenbits, distcode, distbits, At(CodeThen(lens, c, rest), t, out), Meaning(Lens, c, lens[c]));
  }

  /** The end of the block. */
  lemma EndBack(lencode: seq<Code>, lenbits: nat, distcode: seq<Code>, distbits: nat, lens: seq<nat>, dists: seq<nat>, rest: nat,
                t: int, out: seq<octet>)
    requires TablesFor(lencode, lenbits, distcode, distbits, lens, dists) && END_BLOCK < |lens| && lens[END_BLOCK] > 0
    ensures Iterate(lencode, lenbits, distcode, distbits, At(CodeThen(lens, END_BLOCK, rest), t, out), 1) ==
            At(rest, t - lens[END_BLOCK], out).(mode := TYPE)
  {
    hide Entry, Hi, CodeThen, Iterate, Decodes;
    LookFront(lencode, lenbits, Lens, lens, END_BLOCK, rest);
    EndSteps(lencode, lenbits, distcode, distbits, At(CodeThen(lens, END_BLOCK, rest), t, out),
             Meaning(Lens, END_BLOCK, lens[END_BLOCK]));
  }

  /** A length with its extra bits, and then a distance with its own. */
  lemma LengthBack(lencode: seq<Code>, lenbits: nat, distcode: seq<Code>, distbits: nat, lens: seq<nat>, dists: seq<nat>,
                   lc: nat, rest: nat, t: int, out: seq<octet>)
    requires TablesFor(lencode, lenbits, distcode, distbits, lens, dists) && lc <= MAX_MATCH - MIN_MATCH
    requires LITERALS + 1 + LengthCode(lc) < |lens| && lens[LITERALS + 1 + LengthCode(lc)] > 0
    ensures var i := LITERALS + 1 + LengthCode(lc);
            Iterate(lencode, lenbits, distcode, distbits,
                    At(CodeThen(lens, i, ExtraThen(LengthRest(lc), LengthBits(lc), rest)), t, out), 2) ==
            At(rest, t - lens[i] - LengthBits(lc), out).(mode := DIST, length := lc + MIN_MATCH)
  {
    hide Entry, Hi, Lo, CodeThen, ExtraThen, Iterate, Decodes, LengthCode, LengthBits, Pow2;
    var i := LengthCode(lc);
    var s, n1 := LITERALS + 1 + i, ExtraThen(LengthRest(lc), LengthBits(lc), rest);
    LookFront(lencode, lenbits, Lens, lens, s, n1);
    LengthExtra(lc);
    ExtraFront(LengthRest(lc), LengthBits(lc), rest);
    LengthFound(lc, lens[s]);
    LengthSteps(lencode, lenbits, distcode, distbits, At(CodeThen(lens, s, n1), t, out), Meaning(Lens, s, lens[s]));
  }

  lemma LengthFound(lc: nat, bits: nat)
    requires lc <= MAX_MATCH - MIN_MATCH && 1 <= bits <= MAXBITS
    ensures var e := Meaning(Lens, LITERALS + 1 + LengthCode(lc), bits);
            IsLength(e) && e.op == 16 + LengthBits(lc) && e.bits == bits && e.val + LengthRest(lc) == lc + MIN_MATCH
  {
    hide Pow2, LengthBits;
    LengthExtra(lc);
    LenMeaning(LITERALS + 1 + LengthCode(lc), bits);
  }

  lemma DistanceBack(lencode: seq<Code>, lenbits: nat, distcode: seq<Code>, distbits: nat, lens: seq<nat>, dists: seq<nat>,
                     length: nat, dist: nat, rest: nat, t: int, out: seq<octet>)
    requires TablesFor(lencode, lenbits, distcode, distbits, lens, dists) && 1 <= dist <= 32768
    requires DistCode(dist) < |dists| && dists[DistCode(dist)] > 0
    ensures var j := DistCode(dist);
            Iterate(lencode, lenbits, distcode, distbits,
                    At(CodeThen(dists, j, ExtraThen(DistRest(dist), DistBits(dist), rest)), t, out).(mode := DIST, length := length),
                    2) ==
            At(rest, t - dists[j] - DistBits(dist), out).(mode := MATCH, length := length, offset := dist)
  {
    hide Entry, Hi, Lo, CodeThen, ExtraThen, Iterate, Decodes, DistCode, DistBits, Pow2;
    var j := DistCode(dist);
    var n1 := ExtraThen(DistRest(dist), DistBits(dist), rest);
    LookFront(distcode, distbits, Dists, dists, j, n1);
    DistExtra(dist);
    ExtraFront(DistRest(dist), DistBits(dist), rest);
    DistFound(dist, dists[j]);
    DistanceSteps(lencode, lenbits, distcode, distbits, At(CodeThen(dists, j, n1), t, out).(mode := DIST, length := length),
                  Meaning(Dists, j, dists[j]));
  }

  lemma DistFound(dist: nat, bits: nat)
    requires 1 <= dist <= 32768
    ensures var e := Meaning(Dists, DistCode(dist), bits);
            IsDistance(e) && e.op == 16 + DistBits(dist) && e.bits == bits && e.val + DistRest(dist) == dist
  {
    hide Pow2, DistBits;
    DistExtra(dist);
    DistBase(DistCode(dist));
  }

  // ----- how far back copies go on the way

  lemma NearAdd(lencode: seq<Code>, lenbits: nat, distcode: seq<Code>, distbits: nat, s: State, j: nat, k: nat, size: nat)
    requires AllNear(lencode, lenbits, distcode, distbits, s, j, size)
    requires AllNear(lencode, lenbits, distcode, distbits, Iterate(lencode, lenbits, distcode, distbits, s, j), k, size)
    ensures AllNear(lencode, lenbits, distcode, distbits, s, j + k, size)
  {
    hide Iterate;
    var u := Iterate(lencode, lenbits, distcode, distbits, s, j);
    forall i | 0 <= i < j + k ensures Near(lencode, lenbits, distcode, distbits, s, i, size) {
      if i < j {
        assert Near(lencode, lenbits, distcode, distbits, s, i, size);
      } else {
        IterateAdd(lencode, lenbits, distcode, distbits, s, j, i - j);
        var m := i - j;
        assert Near(lencode, lenbits, distcode, distbits, u, m, size);
      }
    }
  }

  /** A code and what follows it are no copy yet. */
  lemma NearCode(lencode: seq<Code>, lenbits: nat, distcode: seq<Code>, distbits: nat, s: State, k: nat, size: nat)
    requires s.mode in {LEN, DIST} && k <= 2
    ensures AllNear(lencode, lenbits, distcode, distbits, s, k, size)
  {
    hide Entry, Lo, Hi, Iterate;
    forall i | 0 <= i < k ensures Near(lencode, lenbits, distcode, distbits, s, i, size) {
      if i == 0 { NoStep(lencode, lenbits, distcode, distbits, s); } else { InflateSpec.OneStep(lencode, lenbits, distcode, distbits, s); }
    }
  }

  lemma NoStep(lencode: seq<Code>, lenbits: nat, distcode: seq<Code>, distbits: nat, s: State)
    ensures Iterate(lencode, lenbits, distcode, distbits, s, 0) == s
  {
  }

  /** A copy from no further back than size. */
  lemma NearCopy(lencode: seq<Code>, lenbits: nat, distcode: seq<Code>, distbits: nat, s: State, size: nat)
    requires s.mode == MATCH && s.extra == 0 && 1 <= s.offset <= |s.out| && s.offset <= size
    ensures AllNear(lencode, lenbits, distcode, distbits, s, s.length, size)
  {
    hide Iterate;
    forall i | 0 <= i < s.length ensures Near(lencode, lenbits, distcode, distbits, s, i, size) {
      if i == 0 { NoStep(lencode, lenbits, distcode, distbits, s); } else { MatchSteps(lencode, lenbits, distcode, distbits, s, i); }
    }
  }

  // ----- a token, a block

  /** A match: the copy it stands for. */
  lemma MatchBack(lencode: seq<Code>, lenbits: nat, distcode: seq<Code>, distbits: nat, lens: seq<nat>, dists: seq<nat>, x: Token,
                  rest: nat, t: int, out: seq<octet>, size: nat)
    returns (k: nat)
    requires TablesFor(lencode, lenbits, distcode, distbits, lens, dists) && HasCodes(lens, dists, x)
    requires x.lc <= MAX_MATCH - MIN_MATCH && 1 <= x.dist <= |out| && x.dist <= size && x.dist <= 32768
    ensures Iterate(lencode, lenbits, distcode, distbits, At(TokenThen(lens, dists, x, rest), t, out), k) ==
            At(rest, t - TokenSize(lens, dists, x), CopyBack(out, x.dist, x.lc + MIN_MATCH))
    ensures AllNear(lencode, lenbits, distcode, distbits, At(TokenThen(lens, dists, x, rest), t, out), k, size)
  {
    hide TablesFor, Iterate, CodeThen, ExtraThen, LengthCode, LengthBits, LengthRest, DistCode, DistBits, DistRest, CopyBack, AllNear;
    var length := x.lc + MIN_MATCH;
    var n2 := CodeThen(dists, DistCode(x.dist), ExtraThen(DistRest(x.dist), DistBits(x.dist), rest));
    var s := At(TokenThen(lens, dists, x, rest), t, out);
    LengthBack(lencode, lenbits, distcode, distbits, lens, dists, x.lc, n2, t, out);
    var s2 := Iterate(lencode, lenbits, distcode, distbits, s, 2);
    DistanceBack(lencode, lenbits, distcode, distbits, lens, dists, length, x.dist, rest, s2.t, out);
    var s4 := Iterate(lencode, lenbits, distcode, distbits, s2, 2);
    IterateAdd(lencode, lenbits, distcode, distbits, s, 2, 2);
    MatchSteps(lencode, lenbits, distcode, distbits, s4, length);
    IterateAdd(lencode, lenbits, distcode, distbits, s, 4, length);
    NearCode(lencode, lenbits, distcode, distbits, s, 2, size);
    NearCode(lencode, lenbits, distcode, distbits, s2, 2, size);
    NearAdd(lencode, lenbits, distcode, distbits, s, 2, 2, size);
    NearCopy(lencode, lenbits, distcode, distbits, s4, size);
    NearAdd(lencode, lenbits, distcode, distbits, s, 4, length, size);
    k := 4 + length;
  }

  /** Any token: the bytes it adds. */
  lemma TokenBack(lencode: seq<Code>, lenbits: nat, distcode: seq<Code>, distbits: nat, lens: seq<nat>, dists: seq<nat>, x: Token,
                  rest: nat, t: int, out: seq<octet>, size: nat)
    returns (k: nat, o: seq<octet>)
    requires TablesFor(lencode, lenbits, distcode, distbits, lens, dists) && HasCodes(lens, dists, x)
    requires x.lc <= MAX_MATCH - MIN_MATCH && x.dist <= |out| && x.dist <= size && x.dist <= 32768
    ensures Iterate(lencode, lenbits, distcode, distbits, At(TokenThen(lens, dists, x, rest), t, out), k) ==
            At(rest, t - TokenSize(lens, dists, x), o)
    ensures AllNear(lencode, lenbits, distcode, distbits, At(TokenThen(lens, dists, x, rest), t, out), k, size)
    ensures AsBytes(o) == Apply(AsBytes(out), x)
  {
    hide TablesFor, Iterate, CodeThen, ExtraThen, LengthCode, LengthBits, LengthRest, DistCode, DistBits, DistRest, CopyBack, AllNear, AsBytes, Byte;
    if x.dist == 0 {
      LiteralBack(lencode, lenbits, distcode, distbits, lens, dists, x.lc, rest, t, out);
      NearCode(lencode, lenbits, distcode, distbits, At(CodeThen(lens, x.lc, rest), t, out), 2, size);
      OneMoreByte(out, x.lc);
      k, o := 2, out + [x.lc];
    } else {
      k := MatchBack(lencode, lenbits, distcode, distbits, lens, dists, x, rest, t, out, size);
      CopyBytes(out, x.dist, x.lc + MIN_MATCH);
      o := CopyBack(out, x.dist, x.lc + MIN_MATCH);
    }
  }

  /** From where the first i tokens have been undone, the bits of those up to j: the machine gets to the block's end, with the
      bytes that the first j tokens stand for, and with every bit used. */
  lemma {:induction false} BlockBack(lencode: seq<Code>, lenbits: nat, distcode: seq<Code>, distbits: nat, lens: seq<nat>,
                                     dists: seq<nat>, ts: seq<Token>, i: nat, j: nat, rest: nat, t: int, out: seq<octet>, size: nat)
    returns (k: nat, o: seq<octet>)
    requires TablesFor(lencode, lenbits, distcode, distbits, lens, dists) && i <= j <= |ts| && AllCoded(lens, dists, ts[i..j])
    requires size <= 32768 && AllProper(ts, size) && AsBytes(out) == Expand(ts[..i])
    ensures Iterate(lencode, lenbits, distcode, distbits, At(BlockThen(lens, dists, ts[i..j], rest), t, out), k) ==
            At(rest, t - BlockSize(lens, dists, ts[i..j]), o).(mode := TYPE)
    ensures AllNear(lencode, lenbits, distcode, distbits, At(BlockThen(lens, dists, ts[i..j], rest), t, out), k, size)
    ensures AsBytes(o) == Expand(ts[..j])
    decreases j - i
  {
    hide TablesFor, Iterate, CodeThen, TokenThen, TokenSize, HasCodes, AllNear, AsBytes, Expand, Apply;
    if i == j {
      EndBack(lencode, lenbits, distcode, distbits, lens, dists, rest, t, out);
      NearCode(lencode, lenbits, distcode, distbits, At(CodeThen(lens, END_BLOCK, rest), t, out), 1, size);
      k, o := 1, out;
    } else {
      assert ts[i..j][1..] == ts[i + 1..j] && ts[i..j][0] == ts[i] && HasCodes(lens, dists, ts[i..j][0]);
      assert ProperAt(ts, i, size);
      assert ts[..i] + [ts[i]] == ts[..i + 1];
      ExpandMore(ts[..i], ts[i]);
      LaterCoded(lens, dists, ts, i, j);
      var next := BlockThen(lens, dists, ts[i + 1..j], rest);
      var s := At(TokenThen(lens, dists, ts[i], next), t, out);
      var k1, o1 := TokenBack(lencode, lenbits, distcode, distbits, lens, dists, ts[i], next, t, out, size);
      var k2;
      k2, o := BlockBack(lencode, lenbits, distcode, distbits, lens, dists, ts, i + 1, j, rest, t - TokenSize(lens, dists, ts[i]), o1, size);
      IterateAdd(lencode, lenbits, distcode, distbits, s, k1, k2);
      NearAdd(lencode, lenbits, distcode, distbits, s, k1, k2, size);
      k := k1 + k2;
    }
  }

  lemma LaterCoded(lens: seq<nat>, dists: seq<nat>, ts: seq<Token>, i: nat, j: nat)
    requires i < j <= |ts| && AllCoded(lens, dists, ts[i..j])
    ensures AllCoded(lens, dists, ts[i + 1..j])
  {
    hide HasCodes;
    var us := ts[i + 1..j];
    forall m | 0 <= m < |us| ensures HasCodes(lens, dists, us[m]) {
      assert us[m] == ts[i..j][m + 1];
    }
  }

  /** However many steps are taken: no copy comes from further back than size, and where the block ends, or is found to be
      bad, it has been undone. */
  lemma AnySteps(lencode: seq<Code>, lenbits: nat, distcode: seq<Code>, distbits: nat, lens: seq<nat>, dists: seq<nat>,
                 ts: seq<Token>, i: nat, j: nat, rest: nat, t: int, out: seq<octet>, size: nat, m: nat)
    requires TablesFor(lencode, lenbits, distcode, distbits, lens, dists) && i <= j <= |ts| && AllCoded(lens, dists, ts[i..j])
    requires size <= 32768 && AllProper(ts, size) && AsBytes(out) == Expand(ts[..i])
    ensures var s := At(BlockThen(lens, dists, ts[i..j], rest), t, out);
            var r := Iterate(lencode, lenbits, distcode, distbits, s, m);
            && AllNear(lencode, lenbits, distcode, distbits, s, m, size)
            && (Ended(r) ==> r.mode == TYPE && r.n == rest && r.t == t - BlockSize(lens, dists, ts[i..j])
                             && AsBytes(r.out) == Expand(ts[..j]))
  {
    hide TablesFor, Iterate, BlockThen, BlockSize, AllNear, AsBytes, Expand, AllProper;
    var s := At(BlockThen(lens, dists, ts[i..j], rest), t, out);
    var k, o := BlockBack(lencode, lenbits, distcode, distbits, lens, dists, ts, i, j, rest, t, out, size);
    var e := Iterate(lencode, lenbits, distcode, distbits, s, k);
    if m <= k {
      NearFirst(lencode, lenbits, distcode, distbits, s, m, k, size);
    } else {
      NearEnded(lencode, lenbits, distcode, distbits, e, m - k, size);
      NearAdd(lencode, lenbits, distcode, distbits, s, k, m - k, size);
    }
    if Ended(Iterate(lencode, lenbits, distcode, distbits, s, m)) {
      SameEnd(lencode, lenbits, distcode, distbits, s, k, m);
    }
  }

  lemma NearFirst(lencode: seq<Code>, lenbits: nat, distcode: seq<Code>, distbits: nat, s: State, m: nat, k: nat, size: nat)
    requires AllNear(lencode, lenbits, distcode, distbits, s, k, size) && m <= k
    ensures AllNear(lencode, lenbits, distcode, distbits, s, m, size)
  {
    hide Near;
  }

  lemma NearEnded(lencode: seq<Code>, lenbits: nat, distcode: seq<Code>, distbits: nat, s: State, m: nat, size: nat)
    requires Ended(s) && Clean(s) == s
    ensures AllNear(lencode, lenbits, distcode, distbits, s, m, size)
  {
    hide Iterate;
    forall i | 0 <= i < m ensures Near(lencode, lenbits, distcode, distbits, s, i, size) {
      StaysEnded(lencode, lenbits, distcode, distbits, s, i);
    }
  }

  /** The steps after the first j. */
  lemma NearLater(lencode: seq<Code>, lenbits: nat, distcode: seq<Code>, distbits: nat, s: State, j: nat, k: nat, size: nat)
    requires AllNear(lencode, lenbits, distcode, distbits, s, j + k, size)
    ensures AllNear(lencode, lenbits, distcode, distbits, Iterate(lencode, lenbits, distcode, distbits, s, j), k, size)
  {
    hide Iterate;
    var u := Iterate(lencode, lenbits, distcode, distbits, s, j);
    forall i | 0 <= i < k ensures Near(lencode, lenbits, distcode, distbits, u, i, size) {
      IterateAdd(lencode, lenbits, distcode, distbits, s, j, i);
      var m := j + i;
      assert Near(lencode, lenbits, distcode, distbits, s, m, size);
    }
  }
}
