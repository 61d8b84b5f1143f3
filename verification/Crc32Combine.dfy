/** crc32_combine_: the CRC of two strings from the CRCs of each, by powers of the operator for one zero bit. */
module Crc32Combine {
  import opened Words
  import opened Crc32
  import B = BlockCrc

  const GF2_DIM := 32

  /** The vector with one bit, n places up. */
  function Unit(n: nat): word { B.Shl(1, n) }

  lemma {:induction false} ShlNext(a: word, n: nat)
    ensures B.Shl(a, n + 1) == Shl1(B.Shl(a, n))
    decreases n
  {
    hide Shl1;
    if n > 0 { ShlNext(Shl1(a), n - 1); }
  }

  lemma {:induction false} ShlXor(a: word, b: word, n: nat)
    ensures B.Shl(Xor(a, b), n) == Xor(B.Shl(a, n), B.Shl(b, n))
    decreases n
  {
    hide Shl1, Xor;
    if n > 0 {
      Shl1Xor(a, b);
      ShlXor(Shl1(a), Shl1(b), n - 1);
    }
  }

  lemma {:induction false} ShlZero(n: nat)
    ensures B.Shl(0, n) == 0
    decreases n
  {
    hide Shl1;
    NoBits();
    if n > 0 { ShlZero(n - 1); }
  }

  lemma NoBits()
    ensures Shl1(0) == 0 && Shr1(0) == 0
  {
  }

  /** mat is the operator that moves the register on by k zero bits. */
  ghost predicate Zeros(mat: seq<word>, k: nat)
  {
    |mat| == GF2_DIM && forall n :: 0 <= n < GF2_DIM ==> ZerosAt(mat, k, n)
  }

  ghost predicate ZerosAt(mat: seq<word>, k: nat, n: int)
  {
    0 <= n < |mat| && mat[n] == Steps(Unit(n), k)
  }

  /** Shifting right n times leaves nothing. */
  predicate Fits(a: word, n: nat)
    decreases n
  {
    if n == 0 then a == 0 else Fits(Shr1(a), n - 1)
  }

  lemma {:induction false} FitsZero(n: nat)
    ensures Fits(0, n)
    decreases n
  {
    hide Shr1;
    NoBits();
    if n > 0 { FitsZero(n - 1); }
  }

  function Shr4(a: word): word { a >> 4 }

  lemma Shr1Four(a: word)
    ensures Shr1(Shr1(Shr1(Shr1(a)))) == Shr4(a)
  {
  }

  lemma Shr4Eight(a: word)
    ensures Shr4(Shr4(Shr4(Shr4(Shr4(Shr4(Shr4(Shr4(a)))))))) == 0
  {
  }

  lemma FitsFour(a: word, n: nat)
    requires Fits(Shr4(a), n)
    ensures Fits(a, n + 4)
  {
    hide Shr1, Shr4;
    Shr1Four(a);
    assert Fits(Shr1(Shr1(Shr1(a))), n + 1);
    assert Fits(Shr1(Shr1(a)), n + 2);
    assert Fits(Shr1(a), n + 3);
  }

  lemma AllFit(a: word)
    ensures Fits(a, 32)
  {
    hide Shr1, Shr4, Fits;
    var a1 := Shr4(a);
    var a2 := Shr4(a1);
    var a3 := Shr4(a2);
    var a4 := Shr4(a3);
    var a5 := Shr4(a4);
    var a6 := Shr4(a5);
    var a7 := Shr4(a6);
    Shr4Eight(a);
    FitsZero(0);
    FitsFour(a7, 0);
    FitsFour(a6, 4);
    FitsFour(a5, 8);
    FitsFour(a4, 12);
    FitsFour(a3, 16);
    FitsFour(a2, 20);
    FitsFour(a1, 24);
    FitsFour(a, 28);
  }

  lemma LowAndRest(v: word)
    ensures v == Xor(if LowBit(v) then 1 else 0, Shl1(Shr1(v)))
  {
  }

  /** What is left of the vector at place i: its lowest bit, and the rest one place up. */
  lemma PlaceSplit(v: word, i: nat)
    ensures B.Shl(v, i) == Xor(if LowBit(v) then Unit(i) else 0, B.Shl(Shr1(v), i + 1))
  {
    hide Shl1, Shr1, Xor, LowBit;
    LowAndRest(v);
    var low: word := if LowBit(v) then 1 else 0;
    ShlXor(low, Shl1(Shr1(v)), i);
    ShlZero(i);
  }

  /** gf2_matrix_times: the vector moved on by k zero bits. */
  method MatrixTimes(mat: array<word>, vec0: word, ghost k: nat) returns (sum: word)
    requires Zeros(mat[..], k)
    ensures sum == Steps(vec0, k)
  {
    hide Steps, Xor, Shr1, LowBit, Unit, Fits;
    var vec := vec0;
    sum := 0;
    var i := 0;
    AllFit(vec);
    TimesStart(vec, k);
    while vec != 0
      invariant 0 <= i <= 32 && Fits(vec, 32 - i) && Xor(sum, Steps(B.Shl(vec, i), k)) == Steps(vec0, k)
      decreases 32 - i
    {
      FitsNext(vec, 32 - i);
      TimesStep(mat[..], vec, sum, i, k);
      assert mat[..][i] == mat[i];
      if LowBit(vec) { sum := Xor(sum, mat[i]); }
      vec := Shr1(vec);
      i := i + 1;
    }
    TimesEnd(sum, i, k);
  }

  lemma FitsNext(v: word, n: nat)
    requires Fits(v, n) && v != 0
    ensures n > 0 && Fits(Shr1(v), n - 1)
  {
    hide Shr1;
  }

  lemma TimesStart(v: word, k: nat)
    ensures Xor(0, Steps(B.Shl(v, 0), k)) == Steps(v, k)
  {
    hide Steps, Xor;
    XorComm(0, Steps(v, k));
    XorZero(Steps(v, k));
  }

  lemma TimesEnd(sum: word, i: nat, k: nat)
    ensures Xor(sum, Steps(B.Shl(0, i), k)) == sum
  {
    hide Steps, Xor;
    ShlZero(i);
    StepsZero(k);
    XorZero(sum);
  }

  lemma TimesStep(mat: seq<word>, v: word, sum: word, i: nat, k: nat)
    requires Zeros(mat, k) && i < 32
    ensures |mat| == 32
    ensures Xor(sum, Steps(B.Shl(v, i), k)) == Xor(if LowBit(v) then Xor(sum, mat[i]) else sum, Steps(B.Shl(Shr1(v), i + 1), k))
  {
    hide Steps, Xor, Shr1, LowBit, Unit, Zeros, Shl1;
    var rest := B.Shl(Shr1(v), i + 1);
    PlaceSplit(v, i);
    RowIs(mat, k, i);
    if LowBit(v) {
      StepsLinear(Unit(i), rest, k);
      XorAssoc(sum, mat[i], Steps(rest, k));
    } else {
      XorComm(0, rest);
      XorZero(rest);
    }
  }

  lemma RowIs(mat: seq<word>, k: nat, i: nat)
    requires Zeros(mat, k) && i < 32
    ensures |mat| == 32 && mat[i] == Steps(Unit(i), k)
  {
    hide Steps, Unit;
    assert ZerosAt(mat, k, i);
  }

  /** gf2_matrix_square: twice as many zero bits. */
  method MatrixSquare(square: array<word>, mat: array<word>, ghost k: nat)
    requires square != mat && square.Length == GF2_DIM && Zeros(mat[..], k)
    modifies square
    ensures Zeros(square[..], 2 * k)
  {
    hide Steps, Unit, Zeros;
    var n := 0;
    while n < GF2_DIM
      invariant 0 <= n <= GF2_DIM && forall m :: 0 <= m < n ==> ZerosAt(square[..], 2 * k, m)
    {
      RowIs(mat[..], k, n);
      assert mat[..][n] == mat[n];
      ghost var s := square[..];
      square[n] := MatrixTimes(mat, mat[n], k);
      StepsAdd(Unit(n), k, k);
      assert square[..] == s[n := square[n]];
      RowSet(s, 2 * k, n, square[n]);
      n := n + 1;
    }
    AllRows(square[..], 2 * k);
  }

  lemma RowSet(mat: seq<word>, k: nat, n: nat, v: word)
    requires n < |mat| && v == Steps(Unit(n), k) && forall m :: 0 <= m < n ==> ZerosAt(mat, k, m)
    ensures var g := mat[n := v]; forall m :: 0 <= m <= n ==> ZerosAt(g, k, m)
  {
    hide Steps, Unit;
    var g := mat[n := v];
    forall m | 0 <= m <= n ensures ZerosAt(g, k, m) {
      if m < n { assert ZerosAt(mat, k, m); }
    }
  }

  lemma AllRows(mat: seq<word>, k: nat)
    requires |mat| == GF2_DIM && forall m :: 0 <= m < GF2_DIM ==> ZerosAt(mat, k, m)
    ensures Zeros(mat, k)
  {
  }

  // ----- the operator for one zero bit

  lemma {:induction false} HighClearAdd(a: word, m: nat, n: nat)
    requires B.HighClear(a, m) && B.HighClear(B.Shl(a, m), n)
    ensures B.HighClear(a, m + n)
    decreases m
  {
    hide Shl1, TopBit;
    if m > 0 { HighClearAdd(Shl1(a), m - 1, n); }
  }

  lemma HighClearLow(a: word)
    ensures B.HighClear(B.Low24(a), 8) && B.Shl(B.Low24(a), 8) == Shl8(a)
  {
    hide B.BitSteps, B.Low24, Shl1, Shl8, TopBit;
    B.Clear0(a); B.Clear1(a); B.Clear2(a); B.Clear3(a); B.Clear4(a); B.Clear5(a); B.Clear6(a); B.Clear7(a);
    B.ShlEight(a);
    var a0 := B.Low24(a);
    var a4 := Shl1(Shl1(Shl1(Shl1(a0))));
    assert B.HighClear(a4, 4) && B.Shl(a4, 4) == Shl1(Shl1(Shl1(Shl1(a4))));
    assert B.HighClear(a0, 8) && B.Shl(a0, 8) == B.Shl(a4, 4);
  }

  lemma BytesOfOne()
    ensures B.Low24(1) == 1 && B.Low24(0x100) == 0x100 && B.Low24(0x1_0000) == 0x1_0000
    ensures Shl8(1) == 0x100 && Shl8(0x100) == 0x1_0000 && Shl8(0x1_0000) == 0x100_0000
  {
  }

  lemma TopSeven()
    ensures B.HighClear(0x100_0000, 7)
  {
    assert B.HighClear(0x1000_0000, 3);
    assert B.HighClear(0x0400_0000, 5);
  }

  lemma OneClear()
    ensures B.HighClear(1, 31)
  {
    hide B.HighClear, B.Shl, Shl8, B.Low24;
    BytesOfOne();
    HighClearLow(1);
    HighClearLow(0x100);
    HighClearLow(0x1_0000);
    TopSeven();
    HighClearAdd(0x1_0000, 8, 7);
    HighClearAdd(0x100, 8, 15);
    HighClearAdd(1, 8, 23);
  }

  lemma {:induction false} ClearAt(a: word, n: nat, m: nat)
    requires B.HighClear(a, n) && m < n
    ensures !TopBit(B.Shl(a, m))
    decreases m
  {
    hide Shl1, TopBit;
    if m > 0 { ClearAt(Shl1(a), n - 1, m - 1); }
  }

  lemma BackDown(a: word)
    requires !TopBit(a)
    ensures Step(Shl1(a)) == a
  {
  }

  lemma StepOne()
    ensures Step(1) == POLY
  {
  }

  /** One zero bit takes the n-th vector to the one below it, and the lowest to the polynomial. */
  lemma UnitStep(n: nat)
    requires n < 32
    ensures Steps(Unit(n), 1) == if n == 0 then POLY else Unit(n - 1)
  {
    hide Shl1, TopBit, Step;
    assert Steps(Unit(n), 1) == Step(Unit(n));
    if n == 0 {
      StepOne();
    } else {
      OneClear();
      ClearAt(1, 31, n - 1);
      ShlNext(1, n - 1);
      BackDown(Unit(n - 1));
    }
  }

  method OneZero(odd: array<word>)
    requires odd.Length == GF2_DIM
    modifies odd
    ensures Zeros(odd[..], 1)
  {
    hide Steps, Unit, Zeros, Shl1;
    odd[0] := POLY;
    UnitStep(0);
    var row: word := 1;
    UnitZero();
    var n := 1;
    while n < GF2_DIM
      invariant 1 <= n <= GF2_DIM && row == Unit(n - 1) && forall m :: 0 <= m < n ==> ZerosAt(odd[..], 1, m)
    {
      UnitStep(n);
      UnitNext(n - 1);
      ghost var s := odd[..];
      odd[n] := row;
      assert odd[..] == s[n := row];
      RowSet(s, 1, n, row);
      row := Shl1(row);
      n := n + 1;
    }
    AllRows(odd[..], 1);
  }

  lemma UnitZero()
    ensures Unit(0) == 1
  {
  }

  lemma UnitNext(n: nat)
    ensures Unit(n + 1) == Shl1(Unit(n))
  {
    hide Shl1;
    ShlNext(1, n);
  }

  // ----- combining

  /** Half of the zeros left to do, twice as long each. */
  lemma HalfWay(crc: word, u: nat, len: nat, all: word)
    requires Steps(crc, u * len) == all
    ensures Steps(if len % 2 == 1 then Steps(crc, u) else crc, (2 * u) * (len / 2)) == all
  {
    hide Steps;
    if len % 2 == 1 {
      StepsAdd(crc, u, u * (len - 1));
      assert u * len == u + u * (len - 1);
      assert u * (len - 1) == (2 * u) * (len / 2) by { assert len - 1 == 2 * (len / 2); Twice(u, len / 2); }
    } else {
      assert len == 2 * (len / 2);
      Twice(u, len / 2);
    }
  }

  lemma Twice(u: nat, h: nat)
    ensures u * (2 * h) == (2 * u) * h
  {
  }

  lemma StepsNone(crc: word, u: nat)
    ensures Steps(crc, u * 0) == crc
  {
  }

  /** The squarings of crc32_combine_: crc moved on by len zero bytes. */
  method ZeroBytes(crc: word, len: nat) returns (r: word)
    requires len > 0
    ensures r == Steps(crc, 8 * len)
  {
    hide Steps, Zeros;
    var even, odd := new word[GF2_DIM], new word[GF2_DIM];
    OneZero(odd);
    MatrixSquare(even, odd, 1);
    MatrixSquare(odd, even, 2);
    var len2 := len;
    r := crc;
    ghost var u, all := 4, Steps(crc, 8 * len);
    while true
      invariant len2 > 0 && u > 0 && Zeros(odd[..], u) && Steps(r, (2 * u) * len2) == all
      invariant even.Length == odd.Length == GF2_DIM && even != odd && fresh(even) && fresh(odd)
      decreases len2
    {
      MatrixSquare(even, odd, u);
      HalfWay(r, 2 * u, len2, all);
      if len2 % 2 == 1 { r := MatrixTimes(even, r, 2 * u); }
      len2 := len2 / 2;
      if len2 == 0 { StepsNone(r, 2 * (2 * u)); break; }
      MatrixSquare(odd, even, 2 * u);
      HalfWay(r, 2 * (2 * u), len2, all);
      if len2 % 2 == 1 { r := MatrixTimes(odd, r, 2 * (2 * u)); }
      len2 := len2 / 2;
      u := 2 * (2 * u);
      if len2 == 0 { StepsNone(r, 2 * u); break; }
    }
  }

  lemma {:induction false} FeedLinear(a: word, c: word, s: seq<bv8>)
    ensures Feed(Xor(a, c), s) == Xor(Steps(a, 8 * |s|), Feed(c, s))
    decreases |s|
  {
    hide Steps, Xor, Octet;
    if s == [] {
      assert Steps(a, 0) == a by { StepsNone(a, 1); }
    } else {
      var b := Octet(s[0]);
      XorAssoc(a, c, b);
      StepsLinear(a, Xor(c, b), 8);
      FeedLinear(Steps(a, 8), Steps(Xor(c, b), 8), s[1..]);
      StepsAdd(a, 8, 8 * |s[1..]|);
    }
  }

  /** crc32_combine_ of the CRCs of two strings is the CRC of the two one after the other. */
  lemma CombineRight(crc: word, s: seq<bv8>, u: seq<bv8>)
    ensures Crc(crc, s + u) == if u == [] then Crc(crc, s) else Xor(Steps(Crc(crc, s), 8 * |u|), Crc(0, u))
  {
    hide Steps, Feed, Xor;
    if u == [] {
      assert s + u == s;
    } else {
      var ones: word := 0xffff_ffff;
      var f := Feed(Not(crc), s);
      FeedAppend(Not(crc), s, u);
      // f is ones away from the CRC of s
      XorAssoc(f, ones, ones);
      XorSelf(ones);
      XorZero(f);
      FeedLinear(Crc(crc, s), ones, u);
      XorComm(0, ones);
      XorZero(ones);
      XorAssoc(Steps(Crc(crc, s), 8 * |u|), Feed(ones, u), ones);
    }
  }

  /** crc32_combine_: what the CRC of the whole would be. */
  method Combine(crc1: word, crc2: word, len2: int) returns (r: word)
    ensures r == if len2 <= 0 then crc1 else Xor(Steps(crc1, 8 * len2), crc2)
    ensures forall crc, s, u :: crc1 == Crc(crc, s) && crc2 == Crc(0, u) && len2 == |u| ==> r == Crc(crc, s + u)
  {
    hide Steps, Crc, Xor;
    r := crc1;
    if len2 > 0 {
      r := ZeroBytes(crc1, len2);
      r := Xor(r, crc2);
    }
    forall crc, s, u | crc1 == Crc(crc, s) && crc2 == Crc(0, u) && len2 == |u| ensures r == Crc(crc, s + u) {
      CombineRight(crc, s, u);
    }
  }
}
