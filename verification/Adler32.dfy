/** zlib's Adler-32: sums whose remainders are put off, without overflow, and the sums of two strings combined. */
module Adler32 {
  import opened Octets

  const BASE := 65521
  const NMAX := 5552
  const WORD := 0x1_0000_0000

  /** s1 of RFC 1950, section 8.2, a byte at a time. */
  function S1(a: nat, s: seq<octet>): nat
  {
    if s == [] then a else (S1(a, s[..|s| - 1]) + s[|s| - 1]) % BASE
  }

  /** And s2. */
  function S2(a: nat, b: nat, s: seq<octet>): nat
  {
    if s == [] then b else (S2(a, b, s[..|s| - 1]) + S1(a, s)) % BASE
  }

  /** The two sums with no remainder taken. */
  function Lo(a: nat, s: seq<octet>): nat
  {
    if s == [] then a else Lo(a, s[..|s| - 1]) + s[|s| - 1]
  }

  function Hi(a: nat, b: nat, s: seq<octet>): nat
  {
    if s == [] then b else Hi(a, b, s[..|s| - 1]) + Lo(a, s)
  }

  function Pack(a: nat, b: nat): nat { a + 65536 * b }

  /** The Adler-32 checksum of s. */
  function Adler(s: seq<octet>): nat
  {
    Pack(S1(1, s), S2(1, 0, s))
  }

  // ----- remainders

  lemma {:induction false} ModMore(x: int, k: nat)
    ensures (x + BASE * k) % BASE == x % BASE
    decreases k
  {
    if k > 0 {
      ModMore(x, k - 1);
      assert (x + BASE * (k - 1) + BASE) % BASE == (x + BASE * (k - 1)) % BASE;
    }
  }

  /** x is y less some BASEs. */
  ghost predicate Less(x: int, y: int, k: int)
  {
    k >= 0 && x == y - BASE * k
  }

  lemma LessMod(x: int, y: int, k: int)
    requires Less(x, y, k)
    ensures x % BASE == y % BASE
  {
    ModMore(x, k);
  }

  lemma ModSum(x: nat, y: nat)
    ensures (x % BASE + y) % BASE == (x + y) % BASE && (x + y % BASE) % BASE == (x + y) % BASE
  {
    var p, q := x / BASE, y / BASE;
    assert x % BASE + y == x + y - BASE * p && x + y % BASE == x + y - BASE * q;
    LessMod(x % BASE + y, x + y, p);
    LessMod(x + y % BASE, x + y, q);
  }

  /** Taking remainders at each byte or once at the end comes to the same. */
  lemma {:induction false} Deferred(a: nat, b: nat, s: seq<octet>)
    requires a < BASE && b < BASE
    ensures S1(a, s) == Lo(a, s) % BASE && S2(a, b, s) == Hi(a, b, s) % BASE
    decreases |s|
  {
    if s != [] {
      var k := |s| - 1;
      Deferred(a, b, s[..k]);
      ModSum(Lo(a, s[..k]), s[k]);
      ModSum(Hi(a, b, s[..k]), Lo(a, s) % BASE);
      ModSum(Hi(a, b, s[..k]), Lo(a, s));
    }
  }

  // ----- the remainder macros

  /** CHOP: 65536 is 15 more than BASE. */
  method Chop(a0: nat) returns (a: nat)
    ensures a == a0 % 65536 + 15 * (a0 / 65536) && a % BASE == a0 % BASE
  {
    var tmp := a0 / 65536;
    a := a0 % 65536;
    a := a + 16 * tmp - tmp;
    assert Less(a, a0, tmp);
    LessMod(a, a0, tmp);
  }

  method Mod28(a0: nat, noDivide: bool) returns (a: nat)
    requires a0 < 0x1000_0000
    ensures a == a0 % BASE
  {
    if !noDivide { return a0 % BASE; }
    a := Chop(a0);
    if a >= BASE { a := a - BASE; }
  }

  method Mod(a0: nat, noDivide: bool) returns (a: nat)
    requires a0 < WORD
    ensures a == a0 % BASE
  {
    if !noDivide { return a0 % BASE; }
    a := Chop(a0);
    a := Mod28(a, noDivide);
  }

  method Mod63(a0: nat, noDivide: bool) returns (a: nat)
    requires a0 < 0x8000_0000_0000_0000
    ensures a == a0 % BASE
  {
    if !noDivide { return a0 % BASE; }
    var tmp := a0 / WORD;
    a := a0 % WORD;
    a := a + 256 * tmp - 32 * tmp + tmp;
    assert Less(a, a0, 65551 * tmp);
    LessMod(a, a0, 65551 * tmp);
    a := Chop(a);
    a := Chop(a);
    if a >= BASE { a := a - BASE; }
  }

  // ----- a block of sums

  /** The sums so far: right up to BASEs, and how far they can have grown in n bytes. */
  ghost predicate Sums(adler: int, sum2: int, lo: nat, hi: nat, ka: int, kb: int, n: nat)
  {
    Less(adler, lo, ka) && Less(sum2, hi, kb) && 0 <= adler <= 65535 + 255 * n && 0 <= sum2 <= Bound(n)
  }

  /** The most that sum2 can be after n bytes of a block. */
  function Bound(n: nat): nat
  {
    if n == 0 then 65535 else Bound(n - 1) + 65535 + 255 * n
  }

  lemma {:induction false} BoundClosed(n: nat)
    ensures 2 * Bound(n) == 2 * 65535 * (n + 1) + 255 * n * (n + 1)
  {
    if n > 0 {
      BoundClosed(n - 1);
      assert 255 * n * (n + 1) == 255 * (n - 1) * n + 2 * 255 * n;
    }
  }

  lemma {:induction false} BoundMono(n: nat, m: nat)
    requires n <= m
    ensures Bound(n) <= Bound(m)
    decreases m
  {
    if n < m { BoundMono(n, m - 1); }
  }

  /** NMAX is small enough: a block's sums fit 32 bits. */
  lemma NoOverflow(n: nat)
    requires n <= NMAX
    ensures Bound(n) < WORD && 65535 + 255 * n < WORD
  {
    BoundClosed(NMAX);
    BoundMono(n, NMAX);
  }

  /** And no larger number of bytes is: NMAX is the most that a block may have if sums below BASE are to stay in 32 bits. */
  lemma NMaxExact(n: nat)
    ensures 255 * n * (n + 1) / 2 + (n + 1) * (BASE - 1) < WORD <==> n <= NMAX
  {
    if n <= NMAX {
      assert n * (n + 1) <= NMAX * (NMAX + 1) by { Products(n, n + 1, NMAX, NMAX + 1); }
    } else {
      assert n * (n + 1) >= (NMAX + 1) * (NMAX + 2) by { Products(NMAX + 1, NMAX + 2, n, n + 1); }
    }
    assert 255 * n * (n + 1) == 255 * (n * (n + 1));
  }

  lemma Products(a: nat, b: nat, c: nat, d: nat)
    requires a <= c && b <= d
    ensures a * b <= c * d
  {
    assert a * b <= c * b <= c * d;
  }

  lemma SumsStep(adler: int, sum2: int, a: nat, b: nat, s: seq<octet>, p: nat, ka: int, kb: int, n: nat)
    requires p < |s| && Sums(adler, sum2, Lo(a, s[..p]), Hi(a, b, s[..p]), ka, kb, n)
    ensures Sums(adler + s[p], sum2 + (adler + s[p]), Lo(a, s[..p + 1]), Hi(a, b, s[..p + 1]), ka, ka + kb, n + 1)
  {
    var t := s[..p + 1];
    assert t[..|t| - 1] == s[..p] && t[|t| - 1] == s[p];
  }

  /** DO16 and the rest: m bytes more, nowhere past 32 bits. */
  method Block(adler0: nat, sum0: nat, buf: array<octet>, p: nat, m: nat, ghost a: nat, ghost b: nat, ghost ka0: int,
               ghost kb0: int, ghost n: nat) returns (adler: nat, sum2: nat, ghost ka: int, ghost kb: int)
    requires p + m <= buf.Length && n + m <= NMAX
    requires Sums(adler0, sum0, Lo(a, buf[..p]), Hi(a, b, buf[..p]), ka0, kb0, n)
    ensures Sums(adler, sum2, Lo(a, buf[..p + m]), Hi(a, b, buf[..p + m]), ka, kb, n + m)
  {
    hide Lo, Hi, Bound;
    adler, sum2, ka, kb := adler0, sum0, ka0, kb0;
    for i := 0 to m
      invariant Sums(adler, sum2, Lo(a, buf[..p + i]), Hi(a, b, buf[..p + i]), ka, kb, n + i)
    {
      SumsStep(adler, sum2, a, b, buf[..], p + i, ka, kb, n + i);
      assert buf[..][..p + i] == buf[..p + i] && buf[..][..p + i + 1] == buf[..p + i + 1];
      NoOverflow(n + i + 1);
      adler := adler + buf[p + i];
      sum2 := sum2 + adler;
      assert adler < WORD && sum2 < WORD;
      kb := ka + kb;
    }
  }

  /** The remainders are taken, and a new block may begin. */
  lemma Reduced(adler: int, sum2: int, lo: nat, hi: nat, ka: int, kb: int, n: nat)
    requires Sums(adler, sum2, lo, hi, ka, kb, n) && n <= NMAX
    ensures 0 <= adler < WORD && 0 <= sum2 < WORD && adler % BASE == lo % BASE && sum2 % BASE == hi % BASE
    ensures Sums(adler % BASE, sum2 % BASE, lo, hi, ka + adler / BASE, kb + sum2 / BASE, 0)
  {
    NoOverflow(n);
    LessMod(adler, lo, ka);
    LessMod(sum2, hi, kb);
  }

  /** adler32_z for 16 bytes or more. */
  method Long(adler0: nat, sum0: nat, buf: array<octet>, len: nat, noDivide: bool) returns (adler: nat, sum2: nat)
    requires 16 <= len <= buf.Length && adler0 < 65536 && sum0 < 65536
    ensures adler == Lo(adler0, buf[..len]) % BASE && sum2 == Hi(adler0, sum0, buf[..len]) % BASE
  {
    hide Lo, Hi, Bound, Sums;
    adler, sum2 := adler0, sum0;
    ghost var ka, kb := 0, 0;
    var p := 0;
    Begin(adler0, sum0, buf[..0]);
    while len - p >= NMAX
      invariant p <= len && Sums(adler, sum2, Lo(adler0, buf[..p]), Hi(adler0, sum0, buf[..p]), ka, kb, 0)
      invariant p > 0 ==> adler == Lo(adler0, buf[..p]) % BASE && sum2 == Hi(adler0, sum0, buf[..p]) % BASE
    {
      adler, sum2, ka, kb := Block(adler, sum2, buf, p, NMAX, adler0, sum0, ka, kb, 0);
      p := p + NMAX;
      Reduced(adler, sum2, Lo(adler0, buf[..p]), Hi(adler0, sum0, buf[..p]), ka, kb, NMAX);
      ka, kb := ka + adler / BASE, kb + sum2 / BASE;
      adler := Mod(adler, noDivide);
      sum2 := Mod(sum2, noDivide);
    }
    if len - p > 0 {
      var n := len - p;
      ghost var m := 0;
      while len - p >= 16
        invariant p <= len && m <= n && m + (len - p) == n
        invariant Sums(adler, sum2, Lo(adler0, buf[..p]), Hi(adler0, sum0, buf[..p]), ka, kb, m)
      {
        adler, sum2, ka, kb := Block(adler, sum2, buf, p, 16, adler0, sum0, ka, kb, m);
        p := p + 16;
        m := m + 16;
      }
      adler, sum2, ka, kb := Block(adler, sum2, buf, p, len - p, adler0, sum0, ka, kb, m);
      Reduced(adler, sum2, Lo(adler0, buf[..len]), Hi(adler0, sum0, buf[..len]), ka, kb, n);
      adler := Mod(adler, noDivide);
      sum2 := Mod(sum2, noDivide);
    } else {
      assert p == len;
    }
  }

  lemma Begin(a: nat, b: nat, e: seq<octet>)
    requires e == [] && a < 65536 && b < 65536
    ensures Sums(a, b, Lo(a, e), Hi(a, b, e), 0, 0, 0)
  {
  }

  lemma OneByte(a: nat, b: nat, s: seq<octet>)
    requires |s| == 1
    ensures Lo(a, s) == a + s[0] && Hi(a, b, s) == b + a + s[0]
  {
    assert s[..0] == [];
  }

  /** The packed sums of s are right, but for a multiple of BASE in the upper half unless it is below BASE. */
  ghost predicate Checks(r: nat, a: nat, b: nat, s: seq<octet>)
  {
    r < WORD && r % 65536 == Lo(a, s) % BASE && r / 65536 % BASE == Hi(a, b, s) % BASE
  }

  lemma PackChecks(x: nat, y: nat, a: nat, b: nat, s: seq<octet>)
    requires x == Lo(a, s) % BASE && y < 65536 && y % BASE == Hi(a, b, s) % BASE
    ensures Checks(Pack(x, y), a, b, s) && Pack(x, y) / 65536 == y
  {
    hide Lo, Hi;
  }

  lemma OneLess(x: nat)
    ensures x >= BASE ==> (x - BASE) % BASE == x % BASE
    ensures BASE <= x < 2 * BASE ==> x - BASE == x % BASE
    ensures x < BASE ==> x == x % BASE
  {
  }

  /** A byte at a time. */
  method Single(adler0: nat, sum0: nat, x: octet, ghost s: seq<octet>) returns (r: nat)
    requires adler0 < 65536 && sum0 < 65536 && s == [x]
    ensures Checks(r, adler0, sum0, s) && (r / 65536 < BASE <==> sum0 + Lo(adler0, s) % BASE < 2 * BASE)
  {
    hide Lo, Hi, Checks;
    OneByte(adler0, sum0, s);
    ModSum(sum0, adler0 + x);
    var adler, sum2 := adler0 + x, sum0;
    OneLess(adler);
    if adler >= BASE { adler := adler - BASE; }
    sum2 := sum2 + adler;
    OneLess(sum2);
    if sum2 >= BASE { sum2 := sum2 - BASE; }
    PackChecks(adler, sum2, adler0, sum0, s);
    r := Pack(adler, sum2);
  }

  /** Fewer than 16 bytes: one subtraction is enough for the lower half. */
  method Short(adler0: nat, sum0: nat, buf: array<octet>, len: nat, noDivide: bool) returns (adler: nat, sum2: nat)
    requires len <= buf.Length && len < 16 && adler0 < 65536 && sum0 < 65536
    ensures adler == Lo(adler0, buf[..len]) % BASE && sum2 == Hi(adler0, sum0, buf[..len]) % BASE
  {
    hide Lo, Hi, Bound, Sums;
    Begin(adler0, sum0, buf[..0]);
    ghost var ka, kb;
    adler, sum2, ka, kb := Block(adler0, sum0, buf, 0, len, adler0, sum0, 0, 0, 0);
    Reduced(adler, sum2, Lo(adler0, buf[..len]), Hi(adler0, sum0, buf[..len]), ka, kb, len);
    ShortBound(adler, sum2, Lo(adler0, buf[..len]), Hi(adler0, sum0, buf[..len]), ka, kb, len);
    if adler >= BASE { adler := adler - BASE; }
    sum2 := Mod28(sum2, noDivide);
  }

  /** adler32_z: the two sums of all the bytes, by way of sums that never pass 32 bits. From a register that is no
      checksum (a half not below BASE), a single byte may leave the upper half not below BASE. */
  method Adler32Z(adler0: nat, buf: array?<octet>, len: nat, noDivide: bool) returns (r: nat)
    requires adler0 < WORD && (buf != null ==> len <= buf.Length) && (len == 1 ==> buf != null)
    ensures buf == null ==> r == 1
    ensures buf != null ==> Checks(r, adler0 % 65536, adler0 / 65536, buf[..len])
    ensures buf != null ==>
              (r / 65536 < BASE <==> !(len == 1 && adler0 / 65536 + Lo(adler0 % 65536, buf[..len]) % BASE >= 2 * BASE))
  {
    hide Lo, Hi, Checks;
    var sum2 := adler0 / 65536 % 65536;
    var adler := adler0 % 65536;
    if len == 1 {
      r := Single(adler, sum2, buf[0], buf[..1]);
      return;
    }
    if buf == null { return 1; }
    ghost var a, b := adler, sum2;
    if len < 16 {
      adler, sum2 := Short(adler, sum2, buf, len, noDivide);
    } else {
      adler, sum2 := Long(adler, sum2, buf, len, noDivide);
    }
    PackChecks(adler, sum2, a, b, buf[..len]);
    r := Pack(adler, sum2);
  }

  /** A start value that is no checksum: what adler32_z makes of it and one zero byte has 65534 above, where 13 is meant. */
  lemma LeftOver(r: nat)
    requires var a, b := 0xffff_fff0 % 65536, 0xffff_fff0 / 65536;
             && Checks(r, a, b, [0])
             && (r / 65536 < BASE <==> b + Lo(a, [0]) % BASE < 2 * BASE)
    ensures r / 65536 == 65534 && Hi(0xffff_fff0 % 65536, 0xffff_fff0 / 65536, [0]) % BASE == 13
  {
    OneByte(0xfff0, 0xffff, [0]);
  }

  lemma ShortBound(adler: int, sum2: int, lo: nat, hi: nat, ka: int, kb: int, n: nat)
    requires Sums(adler, sum2, lo, hi, ka, kb, n) && n < 16
    ensures adler < 2 * BASE && sum2 < 0x1000_0000
  {
    BoundMono(n, 15);
    BoundClosed(15);
  }

  /** From a checksum, adler32_z goes on to the checksum of the longer string; a single byte does no harm there. */
  lemma GoesOn(s: seq<octet>, t: seq<octet>, r: nat)
    requires Checks(r, Adler(s) % 65536, Adler(s) / 65536, t)
    requires r / 65536 < BASE <==> !(|t| == 1 && Adler(s) / 65536 + Lo(Adler(s) % 65536, t) % BASE >= 2 * BASE)
    ensures r == Adler(s + t)
  {
    hide Lo, Hi, S1, S2, Checks;
    Halves(s);
    GoesOnFrom(S1(1, s), S2(1, 0, s), t, r);
    SumsAppend(1, 0, s, t);
  }

  lemma GoesOnFrom(a: nat, b: nat, t: seq<octet>, r: nat)
    requires a < BASE && b < BASE && Checks(r, a, b, t)
    requires r / 65536 < BASE <==> !(|t| == 1 && b + Lo(a, t) % BASE >= 2 * BASE)
    ensures r == Pack(S1(a, t), S2(a, b, t))
  {
    hide Lo, Hi, S1, S2;
    Deferred(a, b, t);
    UpperHalf(r / 65536, b, Lo(a, t), |t|);
    Unpack(r);
  }

  lemma UpperHalf(u: nat, b: nat, lo: nat, n: nat)
    requires b < BASE && (u < BASE <==> !(n == 1 && b + lo % BASE >= 2 * BASE))
    ensures u % BASE == u
  {
  }

  lemma Unpack(r: nat)
    ensures Pack(r % 65536, r / 65536) == r
  {
  }

  lemma {:induction false} SumsAppend(a: nat, b: nat, s: seq<octet>, t: seq<octet>)
    ensures S1(a, s + t) == S1(S1(a, s), t) && S2(a, b, s + t) == S2(S1(a, s), S2(a, b, s), t)
    decreases |t|
  {
    if t == [] {
      assert s + t == s;
    } else {
      var k := |t| - 1;
      SumsAppend(a, b, s, t[..k]);
      assert (s + t)[..|s + t| - 1] == s + t[..k];
    }
  }

  lemma S1Below(s: seq<octet>)
    ensures S1(1, s) < BASE && S2(1, 0, s) < BASE
  {
  }

  // ----- combining

  lemma {:induction false} LoShift(a: nat, c: nat, s: seq<octet>)
    ensures Lo(a + c, s) == Lo(a, s) + c
    decreases |s|
  {
    if s != [] { LoShift(a, c, s[..|s| - 1]); }
  }

  /** A start c higher adds c for each byte; what was there before just adds. */
  lemma {:induction false} HiShift(a: nat, c: nat, b: nat, s: seq<octet>)
    ensures Hi(a + c, b, s) == Hi(a, 0, s) + b + c * |s|
    decreases |s|
  {
    if s != [] {
      var k := |s| - 1;
      HiShift(a, c, b, s[..k]);
      LoShift(a, c, s);
      assert c * |s| == c * k + c;
    }
  }

  lemma ProductMod(x: nat, y: nat)
    ensures (x % BASE * y) % BASE == (x * y) % BASE
  {
    var k := x / BASE;
    assert x % BASE * y == x * y - BASE * (k * y) by { assert x == BASE * k + x % BASE; Distribute(k, x % BASE, y); }
    LessMod(x % BASE * y, x * y, k * y);
  }

  lemma Distribute(k: nat, m: nat, y: nat)
    ensures (BASE * k + m) * y == BASE * (k * y) + m * y
  {
  }

  /** What the halves of the combined checksum have to be. */
  lemma CombinedSums(a1: nat, b1: nat, t: seq<octet>)
    requires a1 < BASE && b1 < BASE
    ensures S1(a1, t) == (a1 + S1(1, t) + BASE - 1) % BASE
    ensures S2(a1, b1, t) == ((|t| % BASE * a1) % BASE + b1 + S2(1, 0, t) + BASE - |t| % BASE) % BASE
  {
    hide Lo, Hi;
    Deferred(a1, b1, t);
    Deferred(1, 0, t);
    LowCombined(a1, t);
    HighCombined(a1, b1, t);
  }

  lemma LowCombined(a1: nat, t: seq<octet>)
    ensures Lo(a1, t) % BASE == (a1 + Lo(1, t) % BASE + BASE - 1) % BASE
  {
    hide Lo;
    LoShift(0, a1, t);
    LoShift(0, 1, t);
    var l := Lo(0, t);
    ModSum(a1 + BASE - 1, l + 1);
    assert a1 + BASE - 1 + (l + 1) == (l + a1) + BASE * 1;
    ModMore(l + a1, 1);
  }

  lemma HighCombined(a1: nat, b1: nat, t: seq<octet>)
    ensures Hi(a1, b1, t) % BASE == ((|t| % BASE * a1) % BASE + b1 + Hi(1, 0, t) % BASE + BASE - |t| % BASE) % BASE
  {
    hide Hi;
    var n := |t|;
    HiShift(0, a1, b1, t);
    HiShift(0, 1, 0, t);
    var h, m := Hi(0, 0, t), n % BASE;
    ProductMod(n, a1);
    // all remainders as differences
    var p, q, k := n * a1 / BASE, (h + n) / BASE, n / BASE;
    var x := (m * a1) % BASE + b1 + (h + n) % BASE + BASE - m;
    assert (m * a1) % BASE == (n * a1) % BASE == n * a1 - BASE * p;
    assert (h + n) % BASE == (h + n) - BASE * q && m == n - BASE * k;
    CommuteProduct(n, a1);
    assert x + BASE * (p + q) == (h + b1 + a1 * n) + BASE * (k + 1);
    ModMore(x, p + q);
    ModMore(h + b1 + a1 * n, k + 1);
  }

  lemma CommuteProduct(x: nat, y: nat)
    ensures x * y == y * x
  {
  }

  /** Both halves below BASE again, by subtraction: which is enough for the halves of checksums. */
  method Fold(x: nat, y: nat) returns (sum1: nat, sum2: nat)
    ensures x < 3 * BASE ==> sum1 == x % BASE
    ensures y < 4 * BASE ==> sum2 == y % BASE
  {
    sum1, sum2 := x, y;
    if sum1 >= BASE { sum1 := sum1 - BASE; }
    if sum1 >= BASE { sum1 := sum1 - BASE; }
    if sum2 >= 2 * BASE { sum2 := sum2 - 2 * BASE; }
    if sum2 >= BASE { sum2 := sum2 - BASE; }
  }

  /** adler32_combine_: the checksum of the whole from the checksums of the parts. */
  method Combine(adler1: nat, adler2: nat, len2: int, noDivide: bool) returns (r: nat)
    requires len2 < 0x8000_0000_0000_0000
    ensures len2 < 0 ==> r == 0xffff_ffff
    ensures forall s, t: seq<octet> :: adler1 == Adler(s) && adler2 == Adler(t) && len2 == |t| ==> r == Adler(s + t)
  {
    hide Adler, Pack, PackOr;
    if len2 < 0 { return 0xffff_ffff; }
    var rem := Mod63(len2, noDivide);
    ghost var a1, b1, a2, b2 := Half(adler1), Half(adler1 / 65536), Half(adler2), Half(adler2 / 65536);
    var sum1 := Half(adler1);
    RemProduct(rem, sum1);
    var sum2 := rem * sum1;
    sum2 := Mod(sum2, noDivide);
    sum1 := sum1 + Half(adler2) + BASE - 1;
    sum2 := sum2 + Half(adler1 / 65536) + Half(adler2 / 65536) + BASE - rem;
    sum1, sum2 := Fold(sum1, sum2);
    r := PackOr(sum1, sum2);
    forall s, t: seq<octet> | adler1 == Adler(s) && adler2 == Adler(t) && len2 == |t| ensures r == Adler(s + t) {
      Halves(s);
      Halves(t);
      assert a1 < BASE && b1 < BASE && a2 < BASE && b2 < BASE;
      CombinedRight(adler1, adler2, s, t, rem, sum1, sum2);
      PackOrIs(sum1, sum2);
    }
  }

  /** x & 0xffff. */
  function Half(x: nat): (h: nat)
    ensures h < 65536
  {
    x % 65536
  }

  /** a | (b << 16), also where a has 17 bits. */
  function PackOr(a: nat, b: nat): nat
  {
    Pack(Half(a), if a / 65536 % 2 == 1 && b % 2 == 0 then b + 1 else b)
  }

  lemma PackOrIs(a: nat, b: nat)
    requires a < BASE
    ensures PackOr(a, b) == Pack(a, b)
  {
  }

  lemma CombinedRight(adler1: nat, adler2: nat, s: seq<octet>, t: seq<octet>, rem: nat, sum1: nat, sum2: nat)
    requires adler1 == Adler(s) && adler2 == Adler(t) && rem == |t| % BASE
    requires sum1 == (Half(adler1) + Half(adler2) + BASE - 1) % BASE
    requires sum2 == (rem * Half(adler1) % BASE + Half(adler1 / 65536) + Half(adler2 / 65536) + BASE - rem) % BASE
    ensures Pack(sum1, sum2) == Adler(s + t)
  {
    hide S1, S2;
    Halves(s);
    Halves(t);
    CombinedSums(S1(1, s), S2(1, 0, s), t);
    SumsAppend(1, 0, s, t);
  }

  lemma Halves(s: seq<octet>)
    ensures Half(Adler(s)) == S1(1, s) < BASE && Half(Adler(s) / 65536) == S2(1, 0, s) < BASE
  {
    hide S1, S2;
    S1Below(s);
  }

  lemma RemProduct(x: nat, y: nat)
    requires x < BASE && y < 65536
    ensures 0 <= x * y < WORD
  {
    assert x * y <= BASE * y <= BASE * 65535;
  }
}
