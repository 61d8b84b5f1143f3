/** 32-bit words as vectors over GF(2): the few operations the checksums use, and their laws. */
module Words {
  type word = bv32

  function Xor(a: word, b: word): word { a ^ b }

  function Shl1(a: word): word { a << 1 }

  function Shr1(a: word): word { a >> 1 }

  function Shl8(a: word): word { a << 8 }

  function Shr8(a: word): word { a >> 8 }

  /** The low byte. */
  function Low8(a: word): word { a & 0xff }

  /** The high byte, as a number. */
  function Top8(a: word): word { a >> 24 }

  function Up24(a: word): word { a << 24 }

  predicate TopBit(a: word) { a & 0x8000_0000 != 0 }

  predicate LowBit(a: word) { a & 1 != 0 }

  lemma XorComm(a: word, b: word)
    ensures Xor(a, b) == Xor(b, a)
  {
  }

  lemma XorAssoc(a: word, b: word, c: word)
    ensures Xor(Xor(a, b), c) == Xor(a, Xor(b, c))
  {
  }

  lemma XorSelf(a: word)
    ensures Xor(a, a) == 0
  {
  }

  lemma XorZero(a: word)
    ensures Xor(a, 0) == a
  {
  }

  lemma Shl1Xor(a: word, b: word)
    ensures Shl1(Xor(a, b)) == Xor(Shl1(a), Shl1(b))
  {
  }

  lemma Shr1Xor(a: word, b: word)
    ensures Shr1(Xor(a, b)) == Xor(Shr1(a), Shr1(b))
  {
  }

  lemma Up24Xor(a: word, b: word)
    ensures Up24(Xor(a, b)) == Xor(Up24(a), Up24(b))
  {
  }

  lemma TopBitXor(a: word, b: word)
    ensures TopBit(Xor(a, b)) <==> TopBit(a) != TopBit(b)
  {
  }

  lemma LowBitXor(a: word, b: word)
    ensures LowBit(Xor(a, b)) <==> LowBit(a) != LowBit(b)
  {
  }

  /** (a + p) + (b + p) == a + b, and moving one p out. */
  lemma XorCancel(a: word, b: word, p: word)
    ensures Xor(Xor(a, p), Xor(b, p)) == Xor(a, b)
    ensures Xor(Xor(a, p), b) == Xor(Xor(a, b), p) && Xor(a, Xor(b, p)) == Xor(Xor(a, b), p)
  {
    hide *;
    XorAssoc(a, p, Xor(b, p));
    XorComm(b, p);
    XorAssoc(p, p, b);
    XorSelf(p);
    XorZero(b);
    XorComm(b, 0);
    XorAssoc(a, p, b);
    XorAssoc(a, b, p);
  }
}
