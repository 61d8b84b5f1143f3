/** Bit strings, most significant bit first, and the numbers they spell. */
module Bits {

  function Pow2(k: nat): (r: nat)
    ensures r >= 1
  {
    if k == 0 then 1 else 2 * Pow2(k - 1)
  }

  function Value(s: seq<bool>): (r: nat)
  {
    if s == [] then 0 else 2 * Value(s[..|s| - 1]) + (if s[|s| - 1] then 1 else 0)
  }

  /** The low n bits of v. */
  function ToBits(n: nat, v: nat): (s: seq<bool>)
    ensures |s| == n
  {
    if n == 0 then [] else ToBits(n - 1, v / 2) + [v % 2 == 1]
  }

  /** The bits of v above the n low ones. */
  function Hi(v: nat, n: nat): nat
  {
    DivNat(v, Pow2(n));
    v / Pow2(n)
  }

  lemma DivNat(v: nat, p: nat)
    requires p > 0
    ensures v / p >= 0
  {
  }

  function Zeros(n: nat): (s: seq<bool>)
    ensures |s| == n && forall i :: 0 <= i < n ==> !s[i]
  {
    seq(n, i => false)
  }

  /** The bits of a string of bytes. */
  function Flatten(bytes: seq<int>): (s: seq<bool>)
    ensures |s| == 8 * |bytes|
  {
    if bytes == [] then []
    else Flatten(bytes[..|bytes| - 1]) + ToBits(8, if bytes[|bytes| - 1] < 0 then 0 else bytes[|bytes| - 1])
  }

  lemma {:induction false} Pow2Add(j: nat, k: nat)
    ensures Pow2(j + k) == Pow2(j) * Pow2(k)
    decreases j
  {
    if j > 0 { Pow2Add(j - 1, k); }
  }

  lemma {:induction false} Pow2Mono(j: nat, k: nat)
    requires j <= k
    ensures Pow2(j) <= Pow2(k)
    decreases k
  {
    if j < k { Pow2Mono(j, k - 1); }
  }

  lemma Pow2Values()
    ensures Pow2(8) == 256 && Pow2(24) == 0x100_0000 && Pow2(32) == 0x1_0000_0000
  {
    assert Pow2(8) == 256;
    Pow2Add(8, 8);
    Pow2Add(8, 16);
    Pow2Add(8, 24);
  }

  lemma {:induction false} ValueBound(s: seq<bool>)
    ensures Value(s) < Pow2(|s|)
  {
    if s != [] { ValueBound(s[..|s| - 1]); }
  }

  lemma {:induction false} ValueAppend(a: seq<bool>, b: seq<bool>)
    ensures Value(a + b) == Value(a) * Pow2(|b|) + Value(b)
    decreases |b|
  {
    if b == [] {
      assert a + b == a;
    } else {
      var k := |b| - 1;
      ValueAppend(a, b[..k]);
      assert (a + b)[..|a + b| - 1] == a + b[..k];
      assert Value(a) * Pow2(|b|) == 2 * (Value(a) * Pow2(k));
    }
  }

  lemma {:induction false} ValueToBits(n: nat, v: nat)
    requires v < Pow2(n)
    ensures Value(ToBits(n, v)) == v
  {
    if n > 0 {
      ValueToBits(n - 1, v / 2);
      var s := ToBits(n, v);
      assert s[..n - 1] == ToBits(n - 1, v / 2);
    }
  }

  lemma DivMod(q: nat, m: nat, r: nat)
    requires r < m
    ensures (q * m + r) / m == q && (q * m + r) % m == r
  {
    var x := q * m + r;
    assert x == (x / m) * m + x % m;
    if x / m < q {
      assert x / m + 1 <= q;
      MulLeq(x / m + 1, q, m);
    } else if x / m > q {
      MulLeq(q + 1, x / m, m);
    }
  }

  lemma MulLeq(a: nat, b: nat, m: nat)
    requires a <= b
    ensures a * m <= b * m
  {
  }

  lemma MulLess(a: nat, b: nat, m: nat)
    requires a < b && m >= 1
    ensures a * m < b * m
  {
  }

  lemma {:induction false} FlattenAppend(a: seq<int>, b: seq<int>)
    ensures Flatten(a + b) == Flatten(a) + Flatten(b)
    decreases |b|
  {
    hide ToBits;
    if b == [] {
      assert a + b == a;
      assert Flatten(a) + [] == Flatten(a);
    } else {
      var k := |b| - 1;
      FlattenAppend(a, b[..k]);
      assert (a + b)[..|a + b| - 1] == a + b[..k];
      var last := ToBits(8, if b[k] < 0 then 0 else b[k]);
      Assoc(Flatten(a), Flatten(b[..k]), last);
    }
  }

  lemma Assoc<T>(a: seq<T>, b: seq<T>, c: seq<T>)
    ensures (a + b) + c == a + (b + c)
  {
  }

  lemma FlattenOne(x: nat)
    ensures Flatten([x]) == ToBits(8, x)
  {
    assert Flatten([]) == [];
    assert [x][..0] == [];
  }

  lemma FlattenFirst(bytes: seq<int>)
    requires bytes != [] && bytes[0] >= 0
    ensures Flatten(bytes) == ToBits(8, bytes[0]) + Flatten(bytes[1..])
  {
    assert bytes == [bytes[0]] + bytes[1..];
    FlattenAppend([bytes[0]], bytes[1..]);
    FlattenOne(bytes[0]);
  }

  /** The bitwise or of two numbers. */
  function Or(a: nat, b: nat): (r: nat)
    decreases a + b
  {
    if a == 0 then b else if b == 0 then a
    else 2 * Or(a / 2, b / 2) + (if a % 2 == 1 || b % 2 == 1 then 1 else 0)
  }

  /** Or is addition where the numbers have no bit in common. */
  lemma {:induction false} OrDisjoint(a: nat, b: nat, k: nat)
    requires b < Pow2(k)
    ensures Or(a * Pow2(k), b) == a * Pow2(k) + b
  {
    if k > 0 && a > 0 && b > 0 {
      var x := a * Pow2(k);
      assert x == 2 * (a * Pow2(k - 1));
      OrDisjoint(a, b / 2, k - 1);
    }
  }

  lemma {:induction false} ToBitsSplit(n: nat, k: nat, v: nat)
    ensures ToBits(n + k, v) == ToBits(n, Hi(v, k)) + ToBits(k, v)
    decreases k
  {
    if k == 0 {
      assert ToBits(n, v) + [] == ToBits(n, v);
    } else {
      ToBitsSplit(n, k - 1, v / 2);
      DivTwice(v, Pow2(k - 1));
      Assoc(ToBits(n, Hi(v, k)), ToBits(k - 1, v / 2), [v % 2 == 1]);
    }
  }

  lemma DivTwice(v: nat, p: nat)
    requires p >= 1
    ensures (v / 2) / p == v / (2 * p)
  {
    var q, r := (v / 2) / p, (v / 2) % p;
    assert v / 2 == q * p + r;
    assert v == q * (2 * p) + (2 * r + v % 2);
    DivMod(q, 2 * p, 2 * r + v % 2);
  }

  /** Only the low n bits of a number matter to ToBits(n, _). */
  lemma {:induction false} ToBitsLow(n: nat, m: nat, v: nat)
    requires n <= m
    ensures ToBits(n, v % Pow2(m)) == ToBits(n, v)
  {
    if n > 0 {
      ToBitsLow(n - 1, m - 1, v / 2);
      ModHalf(v, Pow2(m - 1));
    }
  }

  lemma ModHalf(v: nat, p: nat)
    requires p >= 1
    ensures (v % (2 * p)) / 2 == (v / 2) % p && (v % (2 * p)) % 2 == v % 2
  {
    DivTwice(v, p);
    var q := v / (2 * p);
    assert v / 2 == ((v / 2) / p) * p + (v / 2) % p;
    assert v == q * (2 * p) + v % (2 * p);
    assert q * (2 * p) == 2 * (q * p);
  }

  lemma ValueMod(n: nat, v: nat)
    ensures Value(ToBits(n, v)) == v % Pow2(n)
  {
    ToBitsLow(n, n, v);
    ValueToBits(n, v % Pow2(n));
  }
}
