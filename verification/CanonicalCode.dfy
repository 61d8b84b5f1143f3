/** The canonical Huffman code of a list of code lengths (section 3.2.2 of RFC 1951), and its bits the other way round. */
module CanonicalCode {
  import opened Bits
  import opened Permutations

  const MAXBITS := 15

  ghost predicate LengthsOk(lens: seq<nat>)
  {
    forall s :: 0 <= s < |lens| ==> lens[s] <= MAXBITS
  }

  /** bl_count: how many codes have length l. No code has length 0. */
  function Count(lens: seq<nat>, l: nat): nat
  {
    if l == 0 then 0 else Occ(lens, 0, |lens|, l)
  }

  /** next_code: the first code of length l. */
  function FirstCode(lens: seq<nat>, l: nat): nat
  {
    if l == 0 then 0 else 2 * (FirstCode(lens, l - 1) + Count(lens, l - 1))
  }

  /** The code that symbol s gets: codes of one length go up with the symbols. */
  function CodeOf(lens: seq<nat>, s: nat): nat
    requires s < |lens|
  {
    FirstCode(lens, lens[s]) + Occ(lens, 0, s, lens[s])
  }

  /** One past the last code of length l. */
  function End(lens: seq<nat>, l: nat): nat
  {
    FirstCode(lens, l) + Count(lens, l)
  }

  /** The n low bits of v in reverse order. */
  function Rev(v: nat, n: nat): (r: nat)
    ensures r < Pow2(n)
  {
    if n == 0 then 0 else (v % 2) * Pow2(n - 1) + Rev(v / 2, n - 1)
  }

  /** The n low bits of v. */
  function Lo(v: nat, n: nat): (r: nat)
    ensures r < Pow2(n)
  {
    v % Pow2(n)
  }

  /** Bits arrive the first one lowest, and a code's highest bit first: the bits of h begin with the code of s. */
  predicate Spells(lens: seq<nat>, h: nat, s: nat)
    requires s < |lens|
  {
    lens[s] > 0 && Lo(h, lens[s]) == Rev(CodeOf(lens, s), lens[s])
  }

  // ----- powers and remainders

  lemma ModPow(h: nat, m: nat, n: nat)
    requires m <= n
    ensures Lo(Lo(h, n), m) == Lo(h, m)
  {
    Pow2Add(m, n - m);
    ModParts(h, Pow2(m), Pow2(n - m));
  }

  lemma Rearranged3(a: nat, b: nat, q: nat)
    ensures (a * b) * q == b * (q * a)
  {
  }

  /** Adding multiples of m does not change the remainder. */
  lemma ModPlus(x: nat, m: nat, k: nat)
    requires m > 0
    ensures (x + m * k) % m == x % m && (x + m * k) / m == x / m + k
  {
    var q, r := x / m, x % m;
    assert x + m * k == m * (q + k) + r by { assert x == m * q + r; Distrib(m, q, k); }
    DivUnique(x + m * k, m, q + k, r);
  }

  lemma Distrib(m: nat, q: nat, k: nat)
    ensures m * (q + k) == m * q + m * k
  {
  }

  lemma DivUnique(x: nat, m: nat, q: nat, r: nat)
    requires m > 0 && x == m * q + r && r < m
    ensures x / m == q && x % m == r
  {
    var p := x / m;
    assert x == m * p + x % m;
    if p < q { TimesGap(m, p, q); } else if q < p { TimesGap(m, q, p); }
  }

  lemma {:induction false} TimesGap(m: nat, p: nat, q: nat)
    requires p < q
    ensures m * q >= m * p + m
    decreases q
  {
    TimesNext(m, q - 1);
    if p < q - 1 { TimesGap(m, p, q - 1); }
  }

  lemma TimesNext(m: nat, k: nat)
    ensures m * (k + 1) == m * k + m
  {
  }

  /** Low bits and high bits of a number of n bits and more. */
  lemma SplitMod(h: nat, m: nat, n: nat)
    requires m <= n
    ensures Hi(Lo(h, n), m) == Lo(Hi(h, m), n - m)
  {
    Pow2Add(m, n - m);
    ModParts(h, Pow2(m), Pow2(n - m));
  }

  lemma ModParts(h: nat, a: nat, b: nat)
    requires a > 0 && b > 0
    ensures a * b > 0 && h % (a * b) % a == h % a && h % (a * b) / a == h / a % b
  {
    var q, r := h / a, h % a;
    var q2, r2 := q / b, q % b;
    TwoDivs(h, a, b, q, r, q2, r2);
    LessProduct(a, b, r2, r);
    DivUnique(h, a * b, q2, a * r2 + r);
    DivUnique(a * r2 + r, a, r2, r);
  }

  lemma TwoDivs(h: nat, a: nat, b: nat, q: nat, r: nat, q2: nat, r2: nat)
    requires h == a * q + r && q == b * q2 + r2
    ensures h == (a * b) * q2 + (a * r2 + r)
  {
    Nested(a, b, q2, r2, r);
  }

  lemma Nested(a: nat, b: nat, q: nat, s: nat, r: nat)
    ensures a * (b * q + s) + r == (a * b) * q + (a * s + r)
  {
  }

  lemma LessProduct(a: nat, b: nat, s: nat, r: nat)
    requires s < b && r < a
    ensures a * s + r < a * b
  {
    TimesGap(a, s, b);
  }

  // ----- reversal

  lemma RevOne(v: nat, n: nat)
    ensures Rev(v, n + 1) == (v % 2) * Pow2(n) + Rev(v / 2, n)
  {
  }

  /** The low m bits of the reversal are the reversal of the high m bits. */
  lemma {:induction false} RevLow(v: nat, m: nat, n: nat)
    requires m <= n
    ensures Lo(Rev(v, n), m) == Rev(Hi(v, n - m), m)
    decreases n - m
  {
    if m == n {
      SmallMod(Rev(v, n), Pow2(n));
    } else {
      RevLow(v / 2, m, n - 1);
      Pow2Add(n - 1 - m, m);
      var k := (v % 2) * Pow2(n - 1 - m);
      assert (v % 2) * Pow2(n - 1) == Pow2(m) * k by { Rearranged3b(v % 2, Pow2(n - 1 - m), Pow2(m)); }
      ModPlus(Rev(v / 2, n - 1), Pow2(m), k);
      DivTwice(v, Pow2(n - 1 - m));
    }
  }

  lemma SmallMod(x: nat, m: nat)
    requires x < m
    ensures x % m == x && x / m == 0
  {
  }

  lemma Rearranged3b(c: nat, a: nat, b: nat)
    ensures c * (a * b) == b * (c * a)
  {
  }

  /** Different numbers of n bits have different reversals. */
  lemma {:induction false} RevInjective(v: nat, w: nat, n: nat)
    requires v < Pow2(n) && w < Pow2(n) && Rev(v, n) == Rev(w, n)
    ensures v == w
    decreases n
  {
    if n > 0 {
      var p := Pow2(n - 1);
      TopDecides(v % 2, Rev(v / 2, n - 1), w % 2, Rev(w / 2, n - 1), p);
      RevInjective(v / 2, w / 2, n - 1);
    }
  }

  lemma TopDecides(a: nat, x: nat, b: nat, y: nat, p: nat)
    requires a < 2 && b < 2 && x < p && y < p && a * p + x == b * p + y
    ensures a == b && x == y
  {
  }

  /** Zeros appended to a code do not show in its reversal. */
  lemma {:induction false} RevAppend(v: nat, n: nat, d: nat)
    ensures Rev(v * Pow2(d), n + d) == Rev(v, n)
    decreases d
  {
    if d == 0 {
      TimesOne(v);
    } else {
      var w := v * Pow2(d - 1);
      assert v * Pow2(d) == 2 * w by { Rearranged3b(v, Pow2(d - 1), 2); }
      RevEven(w, n + d - 1);
      RevAppend(v, n, d - 1);
    }
  }

  lemma TimesOne(v: nat)
    ensures v * Pow2(0) == v
  {
  }

  lemma RevEven(w: nat, n: nat)
    ensures Rev(2 * w, n + 1) == Rev(w, n)
  {
    hide Rev, Pow2;
    RevOne(2 * w, n);
    assert 2 * w % 2 == 0 && 2 * w / 2 == w;
  }

  // ----- going on to the next code

  /** The highest clear bit of a reversed code is set, and the bits above it are cleared. */
  function BackStep(huff: nat, n: nat): nat
  {
    if n == 0 then 0
    else if huff >= Pow2(n - 1) then BackStep(huff - Pow2(n - 1), n - 1)
    else huff + Pow2(n - 1)
  }

  lemma {:induction false} BackStepIs(c: nat, n: nat)
    requires c < Pow2(n)
    ensures BackStep(Rev(c, n), n) == if c + 1 < Pow2(n) then Rev(c + 1, n) else 0
    decreases n
  {
    hide Rev, BackStep;
    if n == 0 {
      NoStep();
    } else {
      HalfBelow(c, n);
      if c % 2 == 0 {
        EvenStep(c, n);
      } else {
        OddHalf(c);
        BackStepIs(c / 2, n - 1);
        OddStep(c, n);
      }
    }
  }

  lemma EvenStep(c: nat, n: nat)
    requires n > 0 && c % 2 == 0 && c < Pow2(n)
    ensures c + 1 < Pow2(n) && BackStep(Rev(c, n), n) == Rev(c + 1, n)
  {
    hide BackStep;
    RevOne(c, n - 1);
    RevOne(c + 1, n - 1);
    assert (c + 1) / 2 == c / 2 && (c + 1) % 2 == 1;
    LowStep(Rev(c, n), n);
  }

  lemma NoStep()
    ensures BackStep(Rev(0, 0), 0) == 0 && Pow2(0) == 1
  {
  }

  lemma HalfBelow(c: nat, n: nat)
    requires n > 0 && c < Pow2(n)
    ensures c / 2 < Pow2(n - 1)
  {
  }

  lemma OddStep(c: nat, n: nat)
    requires n > 0 && c % 2 == 1 && c < Pow2(n)
    requires BackStep(Rev(c / 2, n - 1), n - 1) == if c / 2 + 1 < Pow2(n - 1) then Rev(c / 2 + 1, n - 1) else 0
    ensures BackStep(Rev(c, n), n) == if c + 1 < Pow2(n) then Rev(c + 1, n) else 0
  {
    hide Rev, BackStep, Pow2;
    var h := c / 2;
    assert c == 2 * h + 1 && c + 1 == 2 * (h + 1);
    RevOdd(h, n - 1);
    RevEven(h + 1, n - 1);
    HighStep(Rev(h, n - 1), n);
    Double(n);
  }

  lemma Double(n: nat)
    requires n > 0
    ensures Pow2(n) == 2 * Pow2(n - 1)
  {
  }

  lemma RevOdd(w: nat, n: nat)
    ensures Rev(2 * w + 1, n + 1) == Pow2(n) + Rev(w, n)
  {
    hide Rev, Pow2;
    RevOne(2 * w + 1, n);
    assert (2 * w + 1) % 2 == 1 && (2 * w + 1) / 2 == w;
  }

  lemma HighStep(x: nat, n: nat)
    requires n > 0 && x < Pow2(n - 1)
    ensures BackStep(Pow2(n - 1) + x, n) == BackStep(x, n - 1)
  {
  }

  lemma LowStep(h: nat, n: nat)
    requires n > 0 && h < Pow2(n - 1)
    ensures BackStep(h, n) == h + Pow2(n - 1)
  {
  }

  lemma OddHalf(c: nat)
    requires c % 2 == 1
    ensures (c + 1) / 2 == c / 2 + 1 && (c + 1) % 2 == 0
  {
  }

  // ----- the codes of a length and those after it

  lemma {:induction false} EndGrows(lens: seq<nat>, l: nat, m: nat)
    requires l <= m
    ensures End(lens, l) * Pow2(m - l) <= End(lens, m)
    ensures l < m ==> End(lens, l) * Pow2(m - l) <= FirstCode(lens, m)
    decreases m - l
  {
    if l == m {
      TimesOne(End(lens, l));
    } else {
      EndGrows(lens, l, m - 1);
      assert End(lens, l) * Pow2(m - l) == 2 * (End(lens, l) * Pow2(m - 1 - l)) by {
        Rearranged3b(End(lens, l), Pow2(m - 1 - l), 2);
      }
    }
  }

  /** The first code after those of length l, when there are none of the lengths between. */
  lemma {:induction false} FirstAfter(lens: seq<nat>, l: nat, m: nat)
    requires l < m && forall j :: l < j < m ==> Count(lens, j) == 0
    ensures FirstCode(lens, m) == End(lens, l) * Pow2(m - l)
    decreases m - l
  {
    if l + 1 == m {
      assert Pow2(1) == 2;
    } else {
      FirstAfter(lens, l, m - 1);
      Rearranged3b(End(lens, l), Pow2(m - 1 - l), 2);
    }
  }

  lemma OccBefore(lens: seq<nat>, s: nat, t: nat, x: int)
    requires s < t <= |lens| && lens[s] == x
    ensures Occ(lens, 0, s, x) < Occ(lens, 0, t, x)
  {
    OccSplit(lens, 0, s + 1, t, x);
  }

  /** A code lies among those of its length, and codes of one length differ. */
  lemma CodeRange(lens: seq<nat>, s: nat)
    requires s < |lens| && lens[s] > 0
    ensures FirstCode(lens, lens[s]) <= CodeOf(lens, s) < End(lens, lens[s])
  {
    OccBefore(lens, s, |lens|, lens[s]);
  }

  lemma SameCode(lens: seq<nat>, s: nat, t: nat)
    requires s < |lens| && t < |lens| && lens[s] == lens[t] && CodeOf(lens, s) == CodeOf(lens, t)
    ensures s == t
  {
    if s < t { OccBefore(lens, s, t, lens[s]); } else if t < s { OccBefore(lens, t, s, lens[s]); }
  }

  /** For each number among the codes of length l there is a symbol. */
  lemma {:induction false} SymbolOf(lens: seq<nat>, l: nat, n: nat, hi: nat) returns (s: nat)
    requires hi <= |lens| && n < Occ(lens, 0, hi, l)
    ensures s < hi && lens[s] == l && Occ(lens, 0, s, l) == n
    decreases hi
  {
    if lens[hi - 1] == l && Occ(lens, 0, hi - 1, l) == n {
      s := hi - 1;
    } else {
      s := SymbolOf(lens, l, n, hi - 1);
    }
  }

  lemma CodeSymbol(lens: seq<nat>, l: nat, c: nat) returns (s: nat)
    requires l > 0 && FirstCode(lens, l) <= c < End(lens, l)
    ensures s < |lens| && lens[s] == l && CodeOf(lens, s) == c
  {
    s := SymbolOf(lens, l, c - FirstCode(lens, l), |lens|);
  }

  /** No code goes on from a shorter one: the first bits of a longer code are past all shorter codes. */
  lemma PrefixFree(lens: seq<nat>, s: nat, c: nat, l: nat)
    requires s < |lens| && 0 < lens[s] < l && FirstCode(lens, l) <= c
    ensures Hi(c, l - lens[s]) > CodeOf(lens, s)
  {
    var d := Pow2(l - lens[s]);
    CodeRange(lens, s);
    EndGrows(lens, lens[s], l);
    DivAtLeast(c, End(lens, lens[s]), d);
  }

  lemma DivAtLeast(c: nat, e: nat, d: nat)
    requires d > 0 && e * d <= c
    ensures c / d >= e
  {
    if c / d < e {
      TimesGap(d, c / d, e);
      assert c == d * (c / d) + c % d;
      CommuteTimes(d, e);
    }
  }

  lemma CommuteTimes(a: nat, b: nat)
    ensures a * b == b * a
  {
  }

  // ----- how full the code is

  /** How much of the 2^m places of m bits the codes take. */
  function Kraft(lens: seq<nat>, m: nat): nat
  {
    if lens == [] then 0
    else Kraft(lens[..|lens| - 1], m)
         + (var l := lens[|lens| - 1]; if 0 < l <= m then Pow2(m - l) else 0)
  }

  lemma {:induction false} KraftIsEnd(lens: seq<nat>, m: nat)
    ensures Kraft(lens, m) == End(lens, m)
    decreases |lens|
  {
    if lens == [] {
      EndEmpty(m);
    } else {
      var t, l := lens[..|lens| - 1], lens[|lens| - 1];
      assert lens == t + [l];
      KraftIsEnd(t, m);
      EndSnoc(t, l, m);
    }
  }

  lemma {:induction false} EndEmpty(m: nat)
    ensures End([], m) == 0
  {
    if m > 0 { EndEmpty(m - 1); }
  }

  lemma {:induction false} EndSnoc(t: seq<nat>, l: nat, m: nat)
    ensures End(t + [l], m) == End(t, m) + (if 0 < l <= m then Pow2(m - l) else 0)
    decreases m
  {
    OccSame(t, t + [l], 0, |t|, m);
    if m > 0 { EndSnoc(t, l, m - 1); }
  }

  lemma HiHi(x: nat, m: nat, n: nat)
    ensures Hi(Hi(x, m), n) == Hi(x, m + n)
  {
    hide Pow2;
    var a, b := Pow2(m), Pow2(n);
    Pow2Add(m, n);
    var q, r := x / a, x % a;
    var q2, r2 := q / b, q % b;
    assert x == a * q + r && q == b * q2 + r2;
    TwoDivs(x, a, b, q, r, q2, r2);
    LessProduct(a, b, r2, r);
    DivUnique(x, a * b, q2, a * r2 + r);
  }

  lemma HighAll(c: nat)
    ensures Hi(c, 0) == c
  {
    assert Pow2(0) == 1;
  }
}
