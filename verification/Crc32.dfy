/** zlib's CRC-32: the register bit by bit, and what its tables, its word-at-a-time loops and its matrices compute. */
module Crc32 {
  import opened Words

  const POLY: word := 0xedb8_8320

  function Not(a: word): word { Xor(a, 0xffff_ffff) }

  function Octet(b: bv8): word { b as word }

  /** One bit: shift out, and take the polynomial off if a one fell out. */
  function Step(c: word): word
  {
    if LowBit(c) then Xor(Shr1(c), POLY) else Shr1(c)
  }

  function Steps(c: word, n: nat): word
    decreases n
  {
    if n == 0 then c else Steps(Step(c), n - 1)
  }

  /** The register after the bytes of data, one after the other. */
  function Feed(c: word, data: seq<bv8>): word
    decreases |data|
  {
    if data == [] then c else Feed(Steps(Xor(c, Octet(data[0])), 8), data[1..])
  }

  /** The CRC of data, begun with crc: what RFC 1952, section 8, computes for crc 0. */
  function Crc(crc: word, data: seq<bv8>): word
  {
    Not(Feed(Not(crc), data))
  }

  // ----- the register is linear

  lemma StepLinear(a: word, b: word)
    ensures Step(Xor(a, b)) == Xor(Step(a), Step(b))
  {
    hide Shr1, LowBit, Xor;
    Shr1Xor(a, b);
    LowBitXor(a, b);
    XorCancel(Shr1(a), Shr1(b), POLY);
  }

  lemma {:induction false} StepsLinear(a: word, b: word, n: nat)
    ensures Steps(Xor(a, b), n) == Xor(Steps(a, n), Steps(b, n))
    decreases n
  {
    hide Step, Xor;
    if n > 0 {
      StepLinear(a, b);
      StepsLinear(Step(a), Step(b), n - 1);
    }
  }

  lemma {:induction false} StepsAdd(c: word, m: nat, n: nat)
    ensures Steps(c, m + n) == Steps(Steps(c, m), n)
    decreases m
  {
    hide Step;
    if m > 0 { StepsAdd(Step(c), m - 1, n); }
  }

  lemma StepZero()
    ensures Step(0) == 0
  {
  }

  lemma {:induction false} StepsZero(n: nat)
    ensures Steps(0, n) == 0
    decreases n
  {
    hide Step;
    StepZero();
    if n > 0 { StepsZero(n - 1); }
  }

  /** The n low bits of a are clear. */
  predicate LowClear(a: word, n: nat)
    decreases n
  {
    n == 0 || (!LowBit(a) && LowClear(Shr1(a), n - 1))
  }

  function Shr(a: word, n: nat): word
    decreases n
  {
    if n == 0 then a else Shr(Shr1(a), n - 1)
  }

  /** Bits that do not reach the bottom just move down. */
  lemma {:induction false} ClearSteps(a: word, n: nat)
    requires LowClear(a, n)
    ensures Steps(a, n) == Shr(a, n)
    decreases n
  {
    hide Shr1, LowBit, Xor;
    if n > 0 { ClearSteps(Shr1(a), n - 1); }
  }

  function High24(a: word): word { a & 0xffff_ff00 }

  lemma Clear0(a: word) ensures !LowBit(High24(a)) {}

  lemma Clear1(a: word) ensures !LowBit(Shr1(High24(a))) {}

  lemma Clear2(a: word) ensures !LowBit(Shr1(Shr1(High24(a)))) {}

  lemma Clear3(a: word) ensures !LowBit(Shr1(Shr1(Shr1(High24(a))))) {}

  lemma Clear4(a: word) ensures !LowBit(Shr1(Shr1(Shr1(Shr1(High24(a)))))) {}

  lemma Clear5(a: word) ensures !LowBit(Shr1(Shr1(Shr1(Shr1(Shr1(High24(a))))))) {}

  lemma Clear6(a: word) ensures !LowBit(Shr1(Shr1(Shr1(Shr1(Shr1(Shr1(High24(a)))))))) {}

  lemma Clear7(a: word) ensures !LowBit(Shr1(Shr1(Shr1(Shr1(Shr1(Shr1(Shr1(High24(a))))))))) {}

  lemma ShrEight(a: word)
    ensures Shr1(Shr1(Shr1(Shr1(Shr1(Shr1(Shr1(Shr1(High24(a))))))))) == Shr8(a)
  {
  }

  lemma HighSteps(a: word)
    ensures Steps(High24(a), 8) == Shr8(a)
  {
    hide Steps, High24, Shr1, Shr8, LowBit;
    Clear0(a); Clear1(a); Clear2(a); Clear3(a); Clear4(a); Clear5(a); Clear6(a); Clear7(a);
    ShrEight(a);
    var a0 := High24(a);
    var a4 := Shr1(Shr1(Shr1(Shr1(a0))));
    assert LowClear(a4, 4) && Shr(a4, 4) == Shr1(Shr1(Shr1(Shr1(a4))));
    assert LowClear(a0, 8) && Shr(a0, 8) == Shr(a4, 4);
    ClearSteps(a0, 8);
  }

  lemma LowHigh(a: word)
    ensures a == Xor(Low8(a), High24(a))
  {
  }

  /** Eight steps: the low byte's entry in the table, and the rest moved down. */
  lemma EightSteps(c: word)
    ensures Steps(c, 8) == Xor(Steps(Low8(c), 8), Shr8(c))
  {
    hide Steps, Low8, High24, Shr8, Xor;
    LowHigh(c);
    StepsLinear(Low8(c), High24(c), 8);
    HighSteps(c);
  }

  // ----- bytes of a word

  /** Four bytes, the first one lowest. */
  function Little(b0: bv8, b1: bv8, b2: bv8, b3: bv8): word
  {
    Xor(Octet(b0), Shl8(Xor(Octet(b1), Shl8(Xor(Octet(b2), Shl8(Octet(b3)))))))
  }

  predicate Small(a: word) { a < 0x100_0000 }

  lemma SmallOctet(b: bv8)
    ensures Small(Octet(b))
  {
  }

  lemma SmallTwo(b0: bv8, b1: bv8)
    ensures Small(Xor(Octet(b0), Shl8(Octet(b1))))
  {
  }

  lemma SmallThree(b0: bv8, b1: bv8, b2: bv8)
    ensures Small(Xor(Octet(b0), Shl8(Xor(Octet(b1), Shl8(Octet(b2))))))
  {
  }

  lemma ShiftedHigh(a: word)
    requires Small(a)
    ensures High24(Shl8(a)) == Shl8(a) && Shr8(Shl8(a)) == a
  {
  }

  /** What is eight bits up goes in unharmed behind the byte that goes in first. */
  lemma FeedBehind(c: word, rest: word)
    requires Small(rest)
    ensures Steps(Xor(c, Shl8(rest)), 8) == Xor(Steps(c, 8), rest)
  {
    hide Steps, Shl8, Shr8, High24, Small, Xor;
    ShiftedHigh(rest);
    StepsLinear(c, Shl8(rest), 8);
    HighSteps(Shl8(rest));
  }

  /** A word at a time is four bytes at a time. */
  lemma FourBytes(c: word, b0: bv8, b1: bv8, b2: bv8, b3: bv8)
    ensures Steps(Xor(c, Little(b0, b1, b2, b3)), 32) == Feed(c, [b0, b1, b2, b3])
  {
    hide Steps, Shl8, Small, Xor, Octet;
    var r3 := Octet(b3);
    var r2 := Xor(Octet(b2), Shl8(r3));
    var r1 := Xor(Octet(b1), Shl8(r2));
    SmallOctet(b3);
    SmallTwo(b2, b3);
    SmallThree(b1, b2, b3);
    var c1 := Steps(Xor(c, Octet(b0)), 8);
    var c2 := Steps(Xor(c1, Octet(b1)), 8);
    var c3 := Steps(Xor(c2, Octet(b2)), 8);
    FeedFour(c, b0, b1, b2, b3);
    FeedOn(c, Octet(b0), r1, 24);
    FeedOn(c1, Octet(b1), r2, 16);
    FeedOn(c2, Octet(b2), r3, 8);
  }

  lemma FeedOn(c: word, b: word, rest: word, n: nat)
    requires Small(rest)
    ensures Steps(Xor(c, Xor(b, Shl8(rest))), 8 + n) == Steps(Xor(Steps(Xor(c, b), 8), rest), n)
  {
    hide Steps, Shl8, Small, Xor;
    XorAssoc(c, b, Shl8(rest));
    FeedBehind(Xor(c, b), rest);
    StepsAdd(Xor(c, Xor(b, Shl8(rest))), 8, n);
  }

  lemma FeedFour(c: word, b0: bv8, b1: bv8, b2: bv8, b3: bv8)
    ensures Feed(c, [b0, b1, b2, b3]) ==
            Steps(Xor(Steps(Xor(Steps(Xor(Steps(Xor(c, Octet(b0)), 8), Octet(b1)), 8), Octet(b2)), 8), Octet(b3)), 8)
  {
    hide Steps, Xor, Octet;
    FeedCons(c, b0, [b1, b2, b3]);
    var c1 := Steps(Xor(c, Octet(b0)), 8);
    FeedCons(c1, b1, [b2, b3]);
    var c2 := Steps(Xor(c1, Octet(b1)), 8);
    FeedCons(c2, b2, [b3]);
    FeedCons(Steps(Xor(c2, Octet(b2)), 8), b3, []);
  }

  lemma FeedCons(c: word, b: bv8, rest: seq<bv8>)
    ensures Feed(c, [b] + rest) == Feed(Steps(Xor(c, Octet(b)), 8), rest)
  {
    hide Steps, Xor, Octet;
    assert ([b] + rest)[1..] == rest;
  }

  lemma {:induction false} FeedAppend(c: word, s: seq<bv8>, t: seq<bv8>)
    ensures Feed(c, s + t) == Feed(Feed(c, s), t)
    decreases |s|
  {
    hide Steps, Xor, Octet;
    if s == [] {
      assert s + t == t;
    } else {
      assert (s + t)[1..] == s[1..] + t;
      FeedAppend(Steps(Xor(c, Octet(s[0])), 8), s[1..], t);
    }
  }

  lemma FeedSnoc(c: word, s: seq<bv8>, b: bv8)
    ensures Feed(c, s + [b]) == Steps(Xor(Feed(c, s), Octet(b)), 8)
  {
    hide Steps, Xor, Octet;
    FeedAppend(c, s, [b]);
    FeedCons(Feed(c, s), b, []);
    assert [b] + [] == [b];
  }

  // ----- the tables

  const TERMS: seq<nat> := [0, 1, 2, 4, 5, 7, 8, 10, 11, 12, 16, 22, 23, 26]

  /** The bit of x^p, lowest powers in the most significant bits. */
  function Term(p: nat): word { if p <= 31 then 1 << (31 - p) else 0 }

  function Or(a: word, b: word): word { a | b }

  /** The first n terms of the polynomial. */
  function Terms(n: nat): word
    requires n <= |TERMS|
  {
    if n == 0 then 0 else Or(Terms(n - 1), Term(TERMS[n - 1]))
  }

  /** The terms of the polynomial make the pattern that the other functions write as a number. */
  lemma TermsMakePoly()
    ensures Terms(14) == POLY
  {
    hide Or, Term;
    TermBits();
    OrBits();
    assert Terms(4) == 0xe800_0000;
    assert Terms(8) == 0xeda0_0000;
    assert Terms(11) == 0xedb8_8000;
  }

  lemma TermBits()
    ensures Term(0) == 0x8000_0000 && Term(1) == 0x4000_0000 && Term(2) == 0x2000_0000 && Term(4) == 0x0800_0000
    ensures Term(5) == 0x0400_0000 && Term(7) == 0x0100_0000 && Term(8) == 0x0080_0000 && Term(10) == 0x0020_0000
    ensures Term(11) == 0x0010_0000 && Term(12) == 0x0008_0000 && Term(16) == 0x0000_8000 && Term(22) == 0x200
    ensures Term(23) == 0x100 && Term(26) == 0x20
  {
  }

  lemma OrBits()
    ensures forall a: word, b: word :: Or(a, b) == a | b
  {
  }

  /** The bytes of a word the other way round: ZSWAP32. */
  function Swap(a: word): word
  {
    ((a >> 24) & 0xff) + ((a >> 8) & 0xff00) + ((a & 0xff00) << 8) + ((a & 0xff) << 24)
  }

  /** Entry n of table k: the CRC of the byte followed by k zero bytes, in tables 4 to 7 with its bytes swapped. */
  function Entry(k: nat, n: word): word
    requires k < 8
  {
    if k < 4 then Steps(n, 8 * (k + 1)) else Swap(Steps(n, 8 * (k - 3)))
  }

  /** The first n entries of table k are in place; the tables stand one after the other. */
  ghost predicate Filled(t: seq<word>, k: nat, n: int)
  {
    k < 8 && |t| == 2048 && forall v: word :: v < 256 && v as int < n ==> FilledAt(t, k, v)
  }

  ghost predicate FilledAt(t: seq<word>, k: nat, v: word)
  {
    k < 8 && v < 256 && v as int < 256 && |t| == 2048 && t[256 * k + v as int] == Entry(k, v)
  }

  lemma Known(t: seq<word>, k: nat, v: word)
    requires Filled(t, k, 256) && v < 256
    ensures k < 8 && v as int < 256 && |t| == 2048 && t[256 * k + v as int] == Entry(k, v)
  {
    BelowByte(v);
    assert FilledAt(t, k, v);
  }

  lemma LowIndex(a: word)
    ensures Low8(a) < 256 && Low8(a) as int < 256
  {
  }

  ghost predicate Tables(t: seq<word>)
  {
    forall k: nat :: k < 8 ==> Filled(t, k, 256)
  }

  /** The n-th byte, counted from 0. */
  function Counted(n: nat): bv8
    requires n < 256
  {
    if n == 0 then 0 else Counted(n - 1) + 1
  }

  function Numbered(n: nat): word
    requires n < 256
  {
    Octet(Counted(n))
  }

  lemma ByteAfter(b: bv8)
    requires b as int < 255
    ensures (b + 1) as int == b as int + 1
  {
  }

  lemma {:induction false} ByteNumber(n: nat)
    requires n < 256
    ensures Counted(n) as int == n
  {
    if n > 0 {
      ByteNumber(n - 1);
      ByteAfter(Counted(n - 1));
    }
  }

  lemma OctetNumber(b: bv8)
    ensures Octet(b) as int == b as int && Octet(b) < 256
  {
  }

  lemma SameNumber(v: word, w: word)
    requires v as int == w as int
    ensures v == w
  {
    assert (v as int) as word == v;
  }

  lemma NumberedIs(n: nat)
    requires n < 256
    ensures Numbered(n) as int == n && Numbered(n) < 256
  {
    hide Octet;
    ByteNumber(n);
    OctetNumber(Counted(n));
  }

  lemma BelowByte(v: word)
    requires v < 256
    ensures v as int < 256
  {
  }

  lemma OneMore(t: seq<word>, k: nat, n: nat, v: word)
    requires n < 256 && v as int == n && Filled(t, k, n) && FilledAt(t, k, v)
    ensures Filled(t, k, n + 1)
  {
    hide FilledAt;
    forall w: word | w < 256 && w as int < n + 1 ensures FilledAt(t, k, w) {
      if w as int == n { SameNumber(v, w); }
    }
  }

  /** Eight bits by hand. */
  method ByteEntry(c0: word, poly: word) returns (c: word)
    requires poly == POLY
    ensures c == Steps(c0, 8)
  {
    hide Xor, Shr1, LowBit;
    c := c0;
    for k := 0 to 8
      invariant Steps(c, 8 - k) == Steps(c0, 8)
    {
      c := if LowBit(c) then Xor(Shr1(c), poly) else Shr1(c);
    }
  }

  /** The first table, once filled, knows eight steps of every register. */
  lemma TableSteps(t: seq<word>, c: word)
    requires Filled(t, 0, 256)
    ensures Low8(c) as int < 256 <= |t| && Xor(t[Low8(c) as int], Shr8(c)) == Steps(c, 8)
  {
    hide Steps, Xor, Shr8, Low8, FilledAt, Filled;
    LowIndex(c);
    Known(t, 0, Low8(c));
    FirstOf(Low8(c));
    EightSteps(c);
  }

  lemma EntryIs(k: nat, v: word, c: word)
    requires 1 <= k <= 4 && c == Steps(v, 8 * k)
    ensures Entry(k + 3, v) == Swap(c) && Entry(k - 1, v) == c && Steps(c, 8) == Steps(v, 8 * k + 8)
  {
    hide Steps, Swap;
    StepsAdd(v, 8 * k, 8);
  }

  lemma FirstOf(v: word)
    ensures Entry(0, v) == Steps(v, 8)
  {
    hide Steps;
  }

  /** Only column n of tables 1 to 7 may differ. */
  ghost predicate SameRest(s: seq<word>, t: seq<word>, n: nat)
  {
    |s| == |t| == 2048 && t[..256] == s[..256] && forall i :: 0 <= i < 2048 && i % 256 != n ==> t[i] == s[i]
  }

  lemma SameFirst(s: seq<word>, t: seq<word>, n: nat, i: nat)
    requires SameRest(s, t, n) && i < 256
    ensures |t| == |s| == 2048 && t[i] == s[i]
  {
    assert t[..256][i] == s[..256][i];
  }

  lemma Column256(k: nat, x: nat)
    requires x < 256
    ensures (256 * k + x) % 256 == x
  {
  }

  lemma StillFilled(s: seq<word>, t: seq<word>, k: nat, m: nat, n: nat)
    requires Filled(s, k, m) && |s| == |t| && m <= n < 256 && forall i :: 0 <= i < |s| && i % 256 != n ==> t[i] == s[i]
    ensures Filled(t, k, m)
  {
    hide Entry;
    forall v: word | v < 256 && v as int < m ensures FilledAt(t, k, v) {
      assert FilledAt(s, k, v);
      Column256(k, v as int);
    }
  }

  /** Column n of tables 1 to 7, from the first table. */
  method Column(t: array<word>, n: nat, ghost v: word)
    requires n < 256 && v as int == n && v < 256 && Filled(t[..], 0, 256)
    modifies t
    ensures SameRest(old(t[..]), t[..], n)
    ensures forall k: nat :: 1 <= k < 8 ==> FilledAt(t[..], k, v)
  {
    hide Steps, Shr8, Low8, Xor, Swap, Entry, FilledAt, Filled, InColumn, SameRest, ColumnTo, Step;
    ghost var t0 := t[..];
    Known(t0, 0, v);
    FirstOf(v);
    var c := t[n];
    EntryIs(1, v, c);
    t[4 * 256 + n] := Swap(c);
    assert t[..] == t0[4 * 256 + n := Swap(c)];
    ColumnStart(t0, n, v, c);
    var k := 1;
    while k < 4
      invariant 1 <= k <= 4 && c == Steps(v, 8 * k)
      invariant SameRest(t0, t[..], n) && ColumnTo(t[..], k, n, v)
    {
      TableSteps(t0, c);
      SameFirst(t0, t[..], n, Low8(c) as int);
      EntryIs(k, v, c);
      c := Xor(t[Low8(c) as int], Shr8(c));
      EntryIs(k + 1, v, c);
      ghost var s := t[..];
      t[k * 256 + n] := c;
      t[(k + 4) * 256 + n] := Swap(c);
      assert t[..] == s[k * 256 + n := c][(k + 4) * 256 + n := Swap(c)];
      ColumnStep(t0, s, k, n, v, c);
      k := k + 1;
    }
    ColumnWhole(t[..], n, v);
  }

  lemma ColumnWhole(t: seq<word>, n: nat, v: word)
    requires ColumnTo(t, 4, n, v) && v < 256 && v as int == n
    ensures forall k: nat :: 1 <= k < 8 ==> FilledAt(t, k, v)
  {
    hide FilledAt, InColumn;
    forall j: nat | 1 <= j < 8 ensures FilledAt(t, j, v) {
      assert InColumn(t, j, n, v);
      AtColumn(t, j, n, v);
    }
  }

  ghost predicate InColumn(t: seq<word>, j: nat, n: nat, v: word)
  {
    |t| == 2048 && j < 8 && n < 256 && t[256 * j + n] == Entry(j, v)
  }

  /** Column n up to tables k - 1 and k + 3. */
  ghost predicate ColumnTo(t: seq<word>, k: nat, n: nat, v: word)
  {
    && |t| == 2048 && (forall j: nat :: 1 <= j < k ==> InColumn(t, j, n, v))
    && forall j: nat :: 4 <= j < 4 + k ==> InColumn(t, j, n, v)
  }

  lemma ColumnStart(t: seq<word>, n: nat, v: word, c: word)
    requires |t| == 2048 && n < 256 && Swap(c) == Entry(4, v)
    ensures var g := t[4 * 256 + n := Swap(c)]; ColumnTo(g, 1, n, v) && SameRest(t, g, n)
  {
    hide Entry, Swap;
    assert InColumn(t[4 * 256 + n := Swap(c)], 4, n, v);
  }

  lemma ColumnStep(t0: seq<word>, t: seq<word>, k: nat, n: nat, v: word, c: word)
    requires ColumnTo(t, k, n, v) && SameRest(t0, t, n) && 1 <= k < 4 && n < 256 && Entry(k, v) == c && Entry(k + 4, v) == Swap(c)
    ensures var g := t[k * 256 + n := c][(k + 4) * 256 + n := Swap(c)]; ColumnTo(g, k + 1, n, v) && SameRest(t0, g, n)
  {
    hide Entry, Swap;
    var g := t[k * 256 + n := c][(k + 4) * 256 + n := Swap(c)];
    forall j: nat | 1 <= j < k + 4 + 1 && j != k && j != k + 4 && (j < k || j >= 4) ensures InColumn(g, j, n, v) {
      assert InColumn(t, j, n, v);
    }
    assert InColumn(g, k, n, v) && InColumn(g, k + 4, n, v);
  }

  lemma AtColumn(t: seq<word>, j: nat, n: nat, v: word)
    requires InColumn(t, j, n, v) && v < 256 && v as int == n
    ensures FilledAt(t, j, v)
  {
    hide Entry;
  }

  lemma NoneYet(t: seq<word>, k: nat)
    requires k < 8 && |t| == 2048
    ensures Filled(t, k, 0)
  {
  }

  lemma FirstRow(s: seq<word>, t: seq<word>, n: nat)
    requires Filled(s, 0, 256) && SameRest(s, t, n)
    ensures Filled(t, 0, 256)
  {
    hide Entry;
    forall v: word | v < 256 && v as int < 256 ensures FilledAt(t, 0, v) {
      assert FilledAt(s, 0, v);
      assert t[..256][v as int] == s[..256][v as int];
    }
  }

  /** The polynomial from its terms. */
  method MakePoly() returns (poly: word)
    ensures poly == POLY
  {
    hide Term, Or;
    poly := 0;
    var n := 0;
    while n < |TERMS|
      invariant 0 <= n <= |TERMS| && poly == Terms(n)
    {
      poly := Or(poly, Term(TERMS[n]));
      n := n + 1;
    }
    TermsMakePoly();
  }

  /** The first table, bit by bit. */
  method FirstTable(t: array<word>)
    requires t.Length == 2048
    modifies t
    ensures Filled(t[..], 0, 256)
  {
    hide Steps, Filled, Numbered;
    var poly := MakePoly();
    NoneYet(t[..], 0);
    for n := 0 to 256
      invariant Filled(t[..], 0, n)
    {
      NumberedIs(n);
      ghost var s := t[..];
      var c := ByteEntry(Numbered(n), poly);
      t[n] := c;
      FirstEntry(s, n, c, Numbered(n));
      assert t[..] == s[n := c];
    }
  }

  lemma FirstEntry(s: seq<word>, n: nat, c: word, v: word)
    requires Filled(s, 0, n) && n < 256 && v < 256 && v as int == n && c == Steps(v, 8)
    ensures |s| == 2048 && Filled(s[n := c], 0, n + 1)
  {
    hide Steps, Entry, FilledAt;
    var t := s[n := c];
    FirstOf(v);
    AtColumn(t, 0, n, v);
    StillFilled(s, t, 0, n, n);
    OneMore(t, 0, n, v);
  }

  /** make_crc_table: the first table bit by bit, the others from it. */
  method MakeCrcTable(t: array<word>)
    requires t.Length == 2048
    modifies t
    ensures Tables(t[..])
  {
    hide Entry, FilledAt, Filled, Numbered;
    FirstTable(t);
    var n := 0;
    forall k: nat | 1 <= k < 8 ensures Filled(t[..], k, 0) { NoneYet(t[..], k); }
    while n < 256
      invariant 0 <= n <= 256 && Filled(t[..], 0, 256) && forall k: nat :: 1 <= k < 8 ==> Filled(t[..], k, n)
    {
      NumberedIs(n);
      ghost var s, m := t[..], n;
      Column(t, n, Numbered(n));
      FirstRow(s, t[..], m);
      n := n + 1;
      forall k: nat | 1 <= k < 8 ensures Filled(t[..], k, n) {
        ColumnMore(s, t[..], k, m, Numbered(m));
      }
    }
  }

  lemma ColumnMore(s: seq<word>, t: seq<word>, k: nat, n: nat, v: word)
    requires Filled(s, k, n) && SameRest(s, t, n) && n < 256 && v as int == n && FilledAt(t, k, v)
    ensures Filled(t, k, n + 1)
  {
    hide Entry, FilledAt, Filled;
    StillFilled(s, t, k, n, n);
    OneMore(t, k, n, v);
  }
}
