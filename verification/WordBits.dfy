/** The bits of a 32-bit word, most significant first, and the number they spell. */
module WordBits {
  import opened Bits
  import opened Words
  import C = Crc32

  /** The low n bits of w. */
  function LowBits(w: word, n: nat): (s: seq<bool>)
    ensures |s| == n
  {
    if n == 0 then [] else LowBits(Shr1(w), n - 1) + [LowBit(w)]
  }

  /** The number that a word is. */
  function Number(w: word): (r: nat)
    ensures r < 0x1_0000_0000
  {
    ValueBound(LowBits(w, 32));
    Pow2Values();
    Value(LowBits(w, 32))
  }

  lemma {:induction false} ValueBack(s: seq<bool>)
    ensures ToBits(|s|, Value(s)) == s
  {
    if s != [] { ValueBack(s[..|s| - 1]); }
  }

  /** Written out as a number of 32 bits, a word is its bits. */
  lemma NumberBits(w: word)
    ensures ToBits(32, Number(w)) == LowBits(w, 32)
  {
    hide ToBits, Value, LowBits;
    ValueBack(LowBits(w, 32));
  }

  /** Words that differ in no low bit. */
  lemma {:induction false} SameLow(a: word, b: word, n: nat)
    requires C.LowClear(Xor(a, b), n)
    ensures LowBits(a, n) == LowBits(b, n)
    decreases n
  {
    hide Xor, Shr1, LowBit;
    if n > 0 {
      LowBitXor(a, b);
      Shr1Xor(a, b);
      SameLow(Shr1(a), Shr1(b), n - 1);
    }
  }

  /** The n-th bit comes first of n + 1. */
  lemma {:induction false} TopFirst(w: word, n: nat)
    ensures LowBits(w, n + 1) == [LowBit(C.Shr(w, n))] + LowBits(w, n)
    decreases n
  {
    hide Shr1, LowBit;
    if n == 0 {
      assert LowBits(Shr1(w), 0) == [];
    } else {
      TopFirst(Shr1(w), n - 1);
      Assoc([LowBit(C.Shr(w, n))], LowBits(Shr1(w), n - 1), [LowBit(w)]);
    }
  }

  lemma {:induction false} ShrAdd(w: word, m: nat, n: nat)
    ensures C.Shr(w, m + n) == C.Shr(C.Shr(w, m), n)
    decreases m
  {
    hide Shr1;
    if m > 0 { ShrAdd(Shr1(w), m - 1, n); }
  }

  lemma ShrEight(w: word)
    ensures C.Shr(w, 8) == w >> 8
  {
    hide C.Shr;
    ShrAdd(w, 4, 4);
    ShrFour(w);
    ShrFour(w >> 4);
    FourAndFour(w);
  }

  lemma ShrFour(w: word)
    ensures C.Shr(w, 4) == w >> 4 && C.Shr(w, 3) == w >> 3
  {
    hide Shr1;
    assert C.Shr(w, 3) == Shr1(Shr1(Shr1(w))) && C.Shr(w, 4) == Shr1(Shr1(Shr1(Shr1(w))));
    OneByOne(w);
  }

  lemma OneByOne(w: word)
    ensures Shr1(Shr1(Shr1(w))) == w >> 3 && Shr1(Shr1(Shr1(Shr1(w)))) == w >> 4
  {
  }

  lemma FourAndFour(w: word)
    ensures (w >> 4) >> 4 == w >> 8
  {
  }

  lemma TopIs(w: word)
    ensures C.Shr(w, 31) == w >> 31
  {
    hide C.Shr;
    ShrAdd(w, 8, 23);
    ShrEight(w);
    ShrAdd(w >> 8, 8, 15);
    ShrEight(w >> 8);
    ShrAdd((w >> 8) >> 8, 8, 7);
    ShrEight((w >> 8) >> 8);
    var x := ((w >> 8) >> 8) >> 8;
    ShrAdd(x, 4, 3);
    ShrFour(x);
    ShrFour(x >> 4);
    Down(w);
  }

  lemma Down(w: word)
    ensures ((((w >> 8) >> 8) >> 8) >> 4) >> 3 == w >> 31
  {
  }

  /** A word moved up by one bit with its top bit put in below: its bits go round by one. */
  lemma Turned(w: word, t: word)
    requires t == (w << 1) | (w >> 31)
    ensures LowBits(t, 32) == LowBits(w, 32)[1..] + [LowBits(w, 32)[0]]
  {
    hide C.Shr, C.LowClear, Shr1, LowBit, Xor, LowBits;
    TopFirst(w, 31);
    TopIs(w);
    TurnedParts(w, t);
    TopOnly();
    SameLow(Shr1(t), w, 31);
    assert LowBits(t, 32) == LowBits(Shr1(t), 31) + [LowBit(t)] by { LowBitsNext(t, 31); }
  }

  lemma LowBitsNext(w: word, n: nat)
    ensures LowBits(w, n + 1) == LowBits(Shr1(w), n) + [LowBit(w)]
  {
  }

  lemma TurnedParts(w: word, t: word)
    requires t == (w << 1) | (w >> 31)
    ensures LowBit(t) == LowBit(w >> 31) && Xor(Shr1(t), w) in {0, 0x8000_0000}
  {
  }

  lemma TopOnly()
    ensures C.LowClear(0, 31) && C.LowClear(0x8000_0000, 31)
  {
    ZeroClear(31);
    assert C.LowClear(0x8000_0000, 12) && C.LowClear(0x8_0000, 12) && C.LowClear(0x80, 7);
    assert C.Shr(0x8000_0000, 12) == 0x8_0000 && C.Shr(0x8_0000, 12) == 0x80;
    ClearAdd(0x8_0000, 12, 7);
    ClearAdd(0x8000_0000, 12, 19);
  }

  lemma {:induction false} ClearAdd(a: word, m: nat, n: nat)
    requires C.LowClear(a, m) && C.LowClear(C.Shr(a, m), n)
    ensures C.LowClear(a, m + n)
    decreases m
  {
    hide Shr1, LowBit;
    if m > 0 { ClearAdd(Shr1(a), m - 1, n); }
  }

  lemma {:induction false} ZeroClear(n: nat)
    ensures C.LowClear(0, n)
    decreases n
  {
    if n > 0 { ZeroClear(n - 1); }
  }

  /** The bits of a sum over GF(2). */
  lemma {:induction false} XorAt(a: word, b: word, n: nat, j: nat)
    requires j < n
    ensures LowBits(Xor(a, b), n)[j] == (LowBits(a, n)[j] != LowBits(b, n)[j])
    decreases n
  {
    hide Xor, Shr1, LowBit;
    LowBitXor(a, b);
    Shr1Xor(a, b);
    if j < n - 1 { XorAt(Shr1(a), Shr1(b), n - 1, j); }
  }

  /** The bits of a complement. */
  lemma {:induction false} NotAt(a: word, n: nat, j: nat)
    requires j < n <= 32
    ensures LowBits(!a, n)[j] == !LowBits(a, n)[j]
  {
    hide LowBits, Xor;
    Ones(n, j);
    XorAt(a, 0xffff_ffff, n, j);
    NotIsXor(a);
  }

  lemma NotIsXor(a: word)
    ensures !a == Xor(a, 0xffff_ffff)
  {
  }

  lemma Ones(n: nat, j: nat)
    requires j < n <= 32
    ensures LowBits(0xffff_ffff, n)[j]
  {
    assert LowOnes(0xff, 8);
    assert LowOnes(0xffff, 16);
    assert LowOnes(0xff_ffff, 24);
    OnesFrom(0xffff_ffff, 32, n, j);
  }

  /** All of the low k bits are ones. */
  predicate LowOnes(w: word, k: nat)
    decreases k
  {
    k == 0 || (LowBit(w) && LowOnes(Shr1(w), k - 1))
  }

  lemma {:induction false} OnesFrom(w: word, k: nat, n: nat, j: nat)
    requires LowOnes(w, k) && j < n <= k
    ensures LowBits(w, n)[j]
    decreases n
  {
    hide Shr1, LowBit;
    if j < n - 1 { OnesFrom(Shr1(w), k - 1, n - 1, j); }
  }
}
