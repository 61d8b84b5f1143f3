/** bzip2's checksum: CRC-32 with the high bit first. */
module BlockCrc {
  import opened Words

  const POLY: word := 0x04c1_1db7

  /** One bit: shift out, and take the polynomial off if a one fell out. */
  function BitStep(c: word): word
  {
    if TopBit(c) then Xor(Shl1(c), POLY) else Shl1(c)
  }

  function BitSteps(c: word, n: nat): word
    decreases n
  {
    if n == 0 then c else BitSteps(BitStep(c), n - 1)
  }

  /** BZ2_crc32Table[i]. */
  function TableEntry(i: word): word
  {
    BitSteps(Up24(i), 8)
  }

  /** BZ_UPDATE_CRC. */
  function Update(crc: word, ch: word): word
  {
    Xor(Shl8(crc), TableEntry(Xor(Top8(crc), ch)))
  }

  /** One byte, bit by bit. */
  function Divide(crc: word, ch: word): word
  {
    BitSteps(Xor(crc, Up24(ch)), 8)
  }

  lemma StepLinear(a: word, b: word)
    ensures BitStep(Xor(a, b)) == Xor(BitStep(a), BitStep(b))
  {
    hide Shl1, TopBit, Xor;
    Shl1Xor(a, b);
    TopBitXor(a, b);
    XorCancel(Shl1(a), Shl1(b), POLY);
  }

  lemma {:induction false} StepsLinear(a: word, b: word, n: nat)
    ensures BitSteps(Xor(a, b), n) == Xor(BitSteps(a, n), BitSteps(b, n))
    decreases n
  {
    hide BitStep, Xor;
    if n > 0 {
      StepLinear(a, b);
      StepsLinear(BitStep(a), BitStep(b), n - 1);
    }
  }

  function Low24(a: word): word { a & 0x00ff_ffff }

  /** The n high bits of a are clear. */
  predicate HighClear(a: word, n: nat)
    decreases n
  {
    n == 0 || (!TopBit(a) && HighClear(Shl1(a), n - 1))
  }

  function Shl(a: word, n: nat): word
    decreases n
  {
    if n == 0 then a else Shl(Shl1(a), n - 1)
  }

  /** Bits that do not reach the top just move up. */
  lemma {:induction false} ClearSteps(a: word, n: nat)
    requires HighClear(a, n)
    ensures BitSteps(a, n) == Shl(a, n)
    decreases n
  {
    hide Shl1, TopBit, Xor;
    if n > 0 { ClearSteps(Shl1(a), n - 1); }
  }

  lemma Clear0(a: word) ensures !TopBit(Low24(a)) {}

  lemma Clear1(a: word) ensures !TopBit(Shl1(Low24(a))) {}

  lemma Clear2(a: word) ensures !TopBit(Shl1(Shl1(Low24(a)))) {}

  lemma Clear3(a: word) ensures !TopBit(Shl1(Shl1(Shl1(Low24(a))))) {}

  lemma Clear4(a: word) ensures !TopBit(Shl1(Shl1(Shl1(Shl1(Low24(a)))))) {}

  lemma Clear5(a: word) ensures !TopBit(Shl1(Shl1(Shl1(Shl1(Shl1(Low24(a))))))) {}

  lemma Clear6(a: word) ensures !TopBit(Shl1(Shl1(Shl1(Shl1(Shl1(Shl1(Low24(a)))))))) {}

  lemma Clear7(a: word) ensures !TopBit(Shl1(Shl1(Shl1(Shl1(Shl1(Shl1(Shl1(Low24(a))))))))) {}

  lemma ShlEight(a: word)
    ensures Shl1(Shl1(Shl1(Shl1(Shl1(Shl1(Shl1(Shl1(Low24(a))))))))) == Shl8(a)
  {
  }

  lemma LowSteps(a: word)
    ensures BitSteps(Low24(a), 8) == Shl8(a)
  {
    hide BitSteps, Low24, Shl1, Shl8, TopBit;
    Clear0(a); Clear1(a); Clear2(a); Clear3(a); Clear4(a); Clear5(a); Clear6(a); Clear7(a);
    ShlEight(a);
    var a0 := Low24(a);
    var a4 := Shl1(Shl1(Shl1(Shl1(a0))));
    assert HighClear(a4, 4) && Shl(a4, 4) == Shl1(Shl1(Shl1(Shl1(a4))));
    assert HighClear(a0, 8) && Shl(a0, 8) == Shl(a4, 4);
    ClearSteps(a0, 8);
  }

  lemma HighLow(a: word)
    ensures a == Xor(Up24(Top8(a)), Low24(a))
  {
  }

  lemma Split(crc: word, ch: word)
    ensures Xor(crc, Up24(ch)) == Xor(Up24(Xor(Top8(crc), ch)), Low24(crc))
  {
    hide *;
    var t, l := Up24(Top8(crc)), Low24(crc);
    HighLow(crc);
    Up24Xor(Top8(crc), ch);
    XorCancel(t, l, Up24(ch));
    XorAssoc(t, l, Up24(ch));
  }

  /** The table does what bit-by-bit division does, for every register and byte. */
  lemma TableDivides(crc: word, ch: word)
    ensures Update(crc, ch) == Divide(crc, ch)
  {
    hide BitSteps, Low24, Shl8, Top8, Up24, Xor;
    Split(crc, ch);
    StepsLinear(Up24(Xor(Top8(crc), ch)), Low24(crc), 8);
    LowSteps(crc);
    XorComm(Shl8(crc), TableEntry(Xor(Top8(crc), ch)));
  }
}
