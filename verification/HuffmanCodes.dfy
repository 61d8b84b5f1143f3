/** Canonical prefix codes: BZ2_hbAssignCodes, BZ2_hbCreateDecodeTables, and the decoder's walk through its tables. */
module HuffmanCodes {
  import opened Permutations
  import opened Counting
  import opened Bits
  import HuffmanForest

  const MAX_CODE_LEN := 23
  const LONGEST_CODE := 20
  const MAX_ALPHA_SIZE := HuffmanForest.MAX_ALPHA_SIZE

  ghost predicate LensIn(len: seq<int>, lo: nat, hi: nat)
  {
    forall i :: 0 <= i < |len| ==> lo <= len[i] <= hi
  }

  function Count(len: seq<int>, l: int): nat
  {
    Occ(len, 0, |len|, l)
  }

  /** The first code of length l: twice the code after the last one of length l - 1. */
  function First(len: seq<int>, l: nat): nat
  {
    if l == 0 then 0 else 2 * (First(len, l - 1) + Count(len, l - 1))
  }

  /** The code of symbol s, as a number of len[s] bits. */
  function Code(len: seq<int>, s: nat): nat
    requires s < |len| && 0 <= len[s]
  {
    First(len, len[s]) + Occ(len, 0, s, len[s])
  }

  /** The bits start with the code of s. */
  ghost predicate StartsWith(len: seq<int>, s: int, bits: seq<bool>)
  {
    0 <= s < |len| && 0 <= len[s] <= |bits| && Value(bits[..len[s]]) == Code(len, s)
  }

  lemma {:induction false} FirstBelow(len: seq<int>, lo: nat, l: nat)
    requires LensIn(len, lo, LONGEST_CODE) && l <= lo
    ensures First(len, l) == 0 && Below(len, l) == 0
  {
    if l > 0 {
      FirstBelow(len, lo, l - 1);
      NoneAt(len, l - 1);
    }
  }

  lemma NoneAt(len: seq<int>, l: int)
    requires forall i :: 0 <= i < |len| ==> len[i] != l
    ensures Count(len, l) == 0
  {
    if Count(len, l) > 0 { var j := OccWitness(len, 0, |len|, l); }
  }

  /** No code overflows 32 bits on the way, whatever the lengths. */
  lemma {:induction false} CodesFit(len: seq<int>, l: nat)
    ensures First(len, l) + Count(len, l) <= Below(len, l + 1) * Pow2(l)
  {
    if l > 0 {
      CodesFit(len, l - 1);
      FitStep(First(len, l - 1) + Count(len, l - 1), Below(len, l), Pow2(l - 1), Count(len, l));
    } else {
      assert Below(len, 1) == Below(len, 0) + Count(len, 0);
    }
  }

  lemma FitStep(x: nat, n: nat, p: nat, c: nat)
    requires x <= n * p && p >= 1
    ensures 2 * x + c <= (n + c) * (2 * p)
  {
    assert (n + c) * (2 * p) == 2 * (n * p) + 2 * (c * p);
    assert c * p >= c;
  }

  lemma NarrowCode(len: seq<int>, l: nat)
    requires |len| <= MAX_ALPHA_SIZE && l <= LONGEST_CODE && AllBytes(len)
    ensures 2 * (First(len, l) + Count(len, l)) < 0x8000_0000
  {
    CodesFit(len, l);
    BelowMono(len, l + 1, 256);
    BelowAll(len);
    Pow2Mono(l, LONGEST_CODE);
    assert Pow2(LONGEST_CODE) == 0x10_0000 by { Pow2Add(10, 10); }
    MulLeq(Below(len, l + 1), MAX_ALPHA_SIZE, Pow2(l));
  }

  /** BZ2_hbAssignCodes. */
  method AssignCodes(code: array<int>, len: seq<int>, minLen: nat, maxLen: nat)
    requires LensIn(len, minLen, maxLen) && maxLen <= LONGEST_CODE && |len| <= MAX_ALPHA_SIZE
    requires |len| <= code.Length
    modifies code
    ensures forall s :: 0 <= s < |len| ==> code[s] == Code(len, s)
  {
    hide First;
    var vec := 0;
    FirstBelow(len, minLen, minLen);
    var n := minLen;
    while n <= maxLen
      invariant minLen <= n <= maxLen + 1 || n == minLen
      invariant vec == First(len, n)
      invariant forall s :: 0 <= s < |len| && len[s] < n ==> code[s] == Code(len, s)
    {
      var i := 0;
      while i < |len|
        invariant 0 <= i <= |len| && vec == First(len, n) + Occ(len, 0, i, n)
        invariant forall s :: 0 <= s < |len| && (len[s] < n || (len[s] == n && s < i)) ==> code[s] == Code(len, s)
      {
        if len[i] == n {
          code[i] := vec;
          vec := vec + 1;
        }
        i := i + 1;
      }
      NarrowCode(len, n);
      assert vec * 2 < 0x8000_0000;
      FirstNext(len, n);
      vec := vec * 2;
      n := n + 1;
    }
  }

  lemma FirstNext(len: seq<int>, n: nat)
    ensures First(len, n + 1) == 2 * (First(len, n) + Count(len, n))
  {
  }

  // ----- the decoding tables

  /** Symbols in order of length, then of number. */
  ghost predicate IsPerm(len: seq<int>, perm: seq<int>)
  {
    |perm| == MAX_ALPHA_SIZE && forall s :: 0 <= s < |len| ==> Placed(len, perm, s)
  }

  ghost predicate Placed(len: seq<int>, perm: seq<int>, s: int)
  {
    0 <= s < |len| && 0 <= len[s] && 0 <= Slot(len, s) < |perm| && perm[Slot(len, s)] == s
  }

  ghost predicate IsLimit(len: seq<int>, limit: seq<int>, minLen: nat, maxLen: nat)
  {
    && |limit| == MAX_ALPHA_SIZE
    && forall l :: 0 <= l < MAX_CODE_LEN ==>
         limit[l] == if minLen <= l <= maxLen then First(len, l) + Count(len, l) - 1 else 0
  }

  /** What the code of a length exceeds its symbol's place in perm by. */
  ghost predicate IsBase(len: seq<int>, base: seq<int>, minLen: nat, maxLen: nat)
  {
    |base| == MAX_ALPHA_SIZE && forall l: nat :: minLen <= l <= maxLen ==> BaseAt(len, base, l)
  }

  ghost predicate BaseAt(len: seq<int>, base: seq<int>, l: nat)
  {
    l < |base| && base[l] == First(len, l) - Below(len, l)
  }

  ghost predicate IsTables(len: seq<int>, limit: seq<int>, base: seq<int>, perm: seq<int>, minLen: nat, maxLen: nat)
  {
    && LensIn(len, minLen, maxLen) && 1 <= minLen <= maxLen <= LONGEST_CODE && 0 < |len| <= MAX_ALPHA_SIZE
    && minLen in len && maxLen in len
    && IsLimit(len, limit, minLen, maxLen) && IsBase(len, base, minLen, maxLen) && IsPerm(len, perm)
  }

  lemma CountNone(len: seq<int>)
    ensures Below(len, 0) == 0 && forall x :: Occ(len, 0, 0, x) == 0
  {
  }

  method SortSymbols(perm: array<int>, len: seq<int>, minLen: nat, maxLen: nat)
    requires perm.Length == MAX_ALPHA_SIZE && |len| <= MAX_ALPHA_SIZE
    requires LensIn(len, minLen, maxLen) && maxLen <= LONGEST_CODE
    modifies perm
    ensures IsPerm(len, perm[..])
  {
    hide Below, Occ, Slot;
    var pp := 0;
    FirstBelow(len, minLen, minLen);
    var i := minLen;
    while i <= maxLen
      invariant minLen <= i && pp == Below(len, i)
      invariant forall s :: 0 <= s < |len| && len[s] < i ==> Placed(len, perm[..], s)
    {
      var j := 0;
      CountNone(len);
      while j < |len|
        invariant 0 <= j <= |len| && pp == Below(len, i) + Occ(len, 0, j, i)
        invariant forall s :: 0 <= s < |len| && (len[s] < i || (len[s] == i && s < j)) ==> Placed(len, perm[..], s)
      {
        ghost var was := perm[..];
        if len[j] == i {
          PlaceOne(len, was, i, j);
          perm[pp] := j;
          assert perm[..] == was[pp := j];
          pp := pp + 1;
        }
        CountOne(len, i, j);
        j := j + 1;
      }
      BelowNext(len, i);
      i := i + 1;
    }
  }

  lemma CountOne(len: seq<int>, i: nat, j: nat)
    requires j < |len|
    ensures Occ(len, 0, j + 1, i) == Occ(len, 0, j, i) + (if len[j] == i then 1 else 0)
  {
  }

  lemma BelowNext(len: seq<int>, i: nat)
    ensures Below(len, i + 1) == Below(len, i) + Occ(len, 0, |len|, i)
  {
  }

  lemma PlaceOne(len: seq<int>, perm: seq<int>, i: nat, j: nat)
    requires LensIn(len, 0, LONGEST_CODE) && j < |len| <= |perm| && len[j] == i
    ensures var pp := Below(len, i) + Occ(len, 0, j, i);
            && 0 <= pp < |perm|
            && (forall s :: 0 <= s < |len| && (len[s] < i || (len[s] == i && s < j)) && Placed(len, perm, s)
                            ==> Placed(len, perm[pp := j], s))
            && Placed(len, perm[pp := j], j)
  {
    hide Below, Occ;
    SlotRange(len, j);
    var pp := Slot(len, j);
    forall s | 0 <= s < |len| && (len[s] < i || (len[s] == i && s < j)) && Placed(len, perm, s)
      ensures Placed(len, perm[pp := j], s)
    {
      SlotOrder(len, s, j);
    }
  }

  ghost predicate Tally(base: seq<int>, len: seq<int>, i: nat, k: nat)
    requires i <= |len|
  {
    k + 1 < |base| && base[k + 1] == Occ(len, 0, i, k)
  }

  /** base[1..] counts the lengths of the first i symbols. */
  ghost predicate Tallied(base: seq<int>, len: seq<int>, i: nat)
    requires i <= |len|
  {
    forall k: nat :: k < MAX_CODE_LEN - 1 ==> Tally(base, len, i, k)
  }

  lemma TallyStart(base: seq<int>, len: seq<int>)
    requires |base| >= MAX_CODE_LEN && forall k :: 0 <= k < MAX_CODE_LEN ==> base[k] == 0
    ensures Tallied(base, len, 0)
  {
  }

  lemma TallyAll(base: seq<int>, len: seq<int>)
    requires Tallied(base, len, |len|)
    ensures |base| >= MAX_CODE_LEN && forall k :: 1 <= k < MAX_CODE_LEN ==> base[k] == Count(len, k - 1)
  {
    assert Tally(base, len, |len|, MAX_CODE_LEN - 2);
    forall k | 1 <= k < MAX_CODE_LEN ensures base[k] == Count(len, k - 1) {
      assert Tally(base, len, |len|, k - 1);
    }
  }

  lemma TallyNext(base: seq<int>, len: seq<int>, i: nat)
    requires i < |len| && 0 <= len[i] <= LONGEST_CODE && |base| >= MAX_CODE_LEN && Tallied(base, len, i)
    ensures Tallied(base[len[i] + 1 := base[len[i] + 1] + 1], len, i + 1)
  {
    hide Occ;
    var base', j := base[len[i] + 1 := base[len[i] + 1] + 1], i + 1;
    forall k: nat | k < MAX_CODE_LEN - 1 ensures Tally(base', len, j, k) {
      assert Tally(base, len, i, k);
      CountOne(len, k, i);
    }
  }

  /** How many symbols are shorter than i, for each i: the counting and adding up that base starts from. */
  method CountShorter(base: array<int>, len: seq<int>)
    requires base.Length == MAX_ALPHA_SIZE && LensIn(len, 0, LONGEST_CODE)
    modifies base
    ensures forall i :: 0 <= i < MAX_CODE_LEN ==> base[i] == Below(len, i)
  {
    hide Below, Occ, Tallied;
    var i := 0;
    while i < MAX_CODE_LEN
      invariant 0 <= i <= MAX_CODE_LEN && forall k :: 0 <= k < i ==> base[k] == 0
    {
      base[i] := 0;
      i := i + 1;
    }
    i := 0;
    TallyStart(base[..], len);
    while i < |len|
      invariant 0 <= i <= |len| && base[0] == 0 && Tallied(base[..], len, i)
    {
      TallyNext(base[..], len, i);
      ghost var next := base[..][len[i] + 1 := base[len[i] + 1] + 1];
      base[len[i] + 1] := base[len[i] + 1] + 1;
      assert base[..] == next;
      i := i + 1;
    }
    ghost var tally := base[..];
    assert Tallied(tally, len, |len|);
    TallyAll(tally, len);
    i := 1;
    CountNone(len);
    while i < MAX_CODE_LEN
      invariant 1 <= i <= MAX_CODE_LEN
      invariant forall k :: 0 <= k < i ==> base[k] == Below(len, k)
      invariant forall k :: i <= k < MAX_CODE_LEN ==> base[k] == tally[k]
    {
      BelowNext(len, i - 1);
      base[i] := base[i] + base[i - 1];
      i := i + 1;
    }
  }

  method FillLimits(limit: array<int>, base: array<int>, len: seq<int>, minLen: nat, maxLen: nat)
    requires limit != base && limit.Length == base.Length == MAX_ALPHA_SIZE && |len| <= MAX_ALPHA_SIZE
    requires LensIn(len, minLen, maxLen) && minLen <= maxLen <= LONGEST_CODE
    requires forall i :: 0 <= i < MAX_CODE_LEN ==> base[i] == Below(len, i)
    modifies limit
    ensures IsLimit(len, limit[..], minLen, maxLen)
  {
    hide Below, First;
    var i := 0;
    while i < MAX_CODE_LEN
      invariant 0 <= i <= MAX_CODE_LEN && forall k :: 0 <= k < i ==> limit[k] == 0
    {
      limit[i] := 0;
      i := i + 1;
    }
    var vec := 0;
    FirstBelow(len, minLen, minLen);
    i := minLen;
    while i <= maxLen
      invariant minLen <= i <= maxLen + 1 && vec == First(len, i)
      invariant forall l :: 0 <= l < MAX_CODE_LEN ==>
                  limit[l] == if minLen <= l < i then First(len, l) + Count(len, l) - 1 else 0
    {
      BelowNext(len, i);
      vec := vec + (base[i + 1] - base[i]);
      limit[i] := vec - 1;
      NarrowCode(len, i);
      assert vec * 2 < 0x8000_0000;
      FirstNext(len, i);
      vec := vec * 2;
      i := i + 1;
    }
  }

  /** BZ2_hbCreateDecodeTables. */
  method CreateDecodeTables(limit: array<int>, base: array<int>, perm: array<int>, len: seq<int>, minLen: nat, maxLen: nat)
    requires limit != base && limit != perm && base != perm
    requires limit.Length == base.Length == perm.Length == MAX_ALPHA_SIZE
    requires LensIn(len, minLen, maxLen) && 1 <= minLen <= maxLen <= LONGEST_CODE && 0 < |len| <= MAX_ALPHA_SIZE
    requires minLen in len && maxLen in len
    modifies limit, base, perm
    ensures IsTables(len, limit[..], base[..], perm[..], minLen, maxLen)
  {
    hide Below, First, Placed;
    SortSymbols(perm, len, minLen, maxLen);
    CountShorter(base, len);
    FillLimits(limit, base, len, minLen, maxLen);
    FirstBelow(len, minLen, minLen);
    ghost var lim, sorted := limit[..], perm[..];
    assert BaseAt(len, base[..], minLen);
    var i := minLen + 1;
    while i <= maxLen
      invariant minLen + 1 <= i <= maxLen + 1 && limit[..] == lim && perm[..] == sorted
      invariant forall l: nat :: minLen <= l < i ==> BaseAt(len, base[..], l)
      invariant forall l :: i <= l <= maxLen ==> base[l] == Below(len, l)
      modifies base
    {
      FirstNext(len, i - 1);
      ghost var was := base[..];
      base[i] := (limit[i - 1] + 1) * 2 - base[i];
      assert base[..] == was[i := base[i]];
      assert BaseAt(len, base[..], i);
      forall l: nat | minLen <= l < i + 1 ensures BaseAt(len, base[..], l) {
        if l < i { assert BaseAt(len, was, l); }
      }
      i := i + 1;
    }
  }

  // ----- the walk inverts the code

  /** The first l bits lie past every code of l bits. */
  ghost predicate Past(len: seq<int>, l: nat, bits: seq<bool>)
  {
    l <= |bits| && Value(bits[..l]) >= First(len, l) + Count(len, l)
  }

  lemma ValueNext(bits: seq<bool>, l: nat)
    requires l < |bits|
    ensures Value(bits[..l + 1]) == 2 * Value(bits[..l]) + (if bits[l] then 1 else 0)
  {
    assert bits[..l + 1][..l] == bits[..l];
  }

  lemma PastNext(len: seq<int>, l: nat, bits: seq<bool>)
    requires Past(len, l, bits) && l < |bits|
    ensures Value(bits[..l + 1]) >= First(len, l + 1)
  {
    ValueNext(bits, l);
  }

  /** Before the end of a code, the bits read so far are past all shorter codes. */
  lemma {:induction false} PastBefore(len: seq<int>, l: nat, m: nat, bits: seq<bool>)
    requires l < m <= |bits| && Value(bits[..m]) >= First(len, m)
    ensures Past(len, l, bits)
    decreases m
  {
    ValueNext(bits, m - 1);
    if l < m - 1 {
      assert Value(bits[..m - 1]) >= First(len, m - 1);
      PastBefore(len, l, m - 1, bits);
    }
  }

  /** Where the walk stops: at length n the bits are no longer past the codes, and the table entry they lead to is
      the symbol whose code they are. */
  lemma Landing(len: seq<int>, limit: seq<int>, base: seq<int>, perm: seq<int>, minLen: nat, maxLen: nat, n: nat,
                bits: seq<bool>)
    requires IsTables(len, limit, base, perm, minLen, maxLen) && minLen <= n <= LONGEST_CODE && n <= |bits|
    requires Value(bits[..n]) >= First(len, n) && Value(bits[..n]) <= limit[n]
    requires n > minLen ==> Value(bits[..n]) > 0
    ensures n <= maxLen
    ensures var x := Value(bits[..n]) - base[n];
            0 <= x < MAX_ALPHA_SIZE && StartsWith(len, perm[x], bits) && len[perm[x]] == n
  {
    hide First, Below, Value, Occ;
    assert n <= maxLen;
    assert BaseAt(len, base, n);
    var k := Value(bits[..n]) - First(len, n);
    var s := Nth(len, n, k);
    assert Placed(len, perm, s);
    assert perm[Value(bits[..n]) - base[n]] == s;
  }

  /** The symbol with k symbols of its length before it. */
  lemma Nth(len: seq<int>, l: nat, k: nat) returns (s: nat)
    requires k < Count(len, l)
    ensures s < |len| && len[s] == l && Occ(len, 0, s, l) == k
  {
    s := NthBefore(len, l, k, |len|);
  }

  lemma NthBefore(len: seq<int>, l: nat, k: nat, hi: nat) returns (s: nat)
    requires hi <= |len| && k < Occ(len, 0, hi, l)
    ensures s < hi && len[s] == l && Occ(len, 0, s, l) == k
  {
    if Occ(len, 0, hi - 1, l) == k { s := hi - 1; } else { s := NthBefore(len, l, k, hi - 1); }
  }

  /** A code is among the codes of its length. */
  lemma CodeInRange(len: seq<int>, s: nat)
    requires s < |len| && 0 <= len[s]
    ensures First(len, len[s]) <= Code(len, s) < First(len, len[s]) + Count(len, len[s])
  {
    OccGrows(len, s, |len|, len[s]);
  }

  /** No bit string starts with two codes: canonical codes are prefix-free, whatever the lengths. */
  lemma PrefixFree(len: seq<int>, s: nat, t: nat, bits: seq<bool>)
    requires StartsWith(len, s, bits) && StartsWith(len, t, bits)
    ensures s == t
  {
    CodeInRange(len, s);
    CodeInRange(len, t);
    if len[s] < len[t] {
      PastBefore(len, len[s], len[t], bits);
    } else if len[t] < len[s] {
      PastBefore(len, len[t], len[s], bits);
    } else if s < t {
      OccGrows(len, s, t, len[s]);
    } else if t < s {
      OccGrows(len, t, s, len[s]);
    }
  }

  /** Past the codes of every length up to l, no symbol's code of at most l bits begins the bits. */
  lemma PastAll(len: seq<int>, s: int, l: nat, bits: seq<bool>)
    requires Past(len, l, bits) && StartsWith(len, s, bits)
    ensures len[s] > l
  {
    CodeInRange(len, s);
    if len[s] < l {
      PastFurther(len, len[s], l, bits);
    }
  }

  lemma PastFurther(len: seq<int>, l: nat, m: nat, bits: seq<bool>)
    requires l < m && Past(len, m, bits)
    ensures Past(len, l, bits)
  {
    PastBefore(len, l, m, bits);
  }

  // ----- lengths that use up the code space

  /** What the codes of at most l bits take of the code space, in units of 2^-m. */
  function Taken(len: seq<int>, m: nat, l: nat): nat
    requires l <= m
  {
    if l == 0 then Count(len, 0) * Pow2(m) else Taken(len, m, l - 1) + Count(len, l) * Pow2(m - l)
  }

  lemma TakenIsCodes0(len: seq<int>, m: nat)
    ensures Taken(len, m, 0) == (First(len, 0) + Count(len, 0)) * Pow2(m)
  {
    hide Count, Pow2;
  }

  lemma TakenNext(len: seq<int>, m: nat, l: nat)
    requires 1 <= l <= m
    ensures Taken(len, m, l) == Taken(len, m, l - 1) + Count(len, l) * Pow2(m - l)
    ensures First(len, l) == 2 * (First(len, l - 1) + Count(len, l - 1)) && Pow2(m - (l - 1)) == 2 * Pow2(m - l)
  {
    hide Count;
  }

  lemma Doubled(t: nat, x: nat, c: nat, p: nat)
    requires t == x * (2 * p)
    ensures t + c * p == (2 * x + c) * p
  {
    assert x * (2 * p) == (2 * x) * p;
  }

  lemma {:induction false} TakenIsCodes(len: seq<int>, m: nat, l: nat)
    requires l <= m
    ensures Taken(len, m, l) == (First(len, l) + Count(len, l)) * Pow2(m - l)
  {
    hide First, Count, Pow2, Taken;
    if l == 0 {
      TakenIsCodes0(len, m);
    } else {
      TakenIsCodes(len, m, l - 1);
      TakenNext(len, m, l);
      Doubled(Taken(len, m, l - 1), First(len, l - 1) + Count(len, l - 1), Count(len, l), Pow2(m - l));
    }
  }

  lemma {:induction false} TakenGrows(len: seq<int>, m: nat, l: nat, l': nat)
    requires l <= l' <= m
    ensures Taken(len, m, l) <= Taken(len, m, l')
    decreases l'
  {
    if l < l' { TakenGrows(len, m, l, l' - 1); }
  }

  lemma {:induction false} TakenSnoc(len: seq<int>, x: int, m: nat, l: nat)
    requires l <= m && 0 <= x
    ensures Taken(len + [x], m, l) == Taken(len, m, l) + (if x <= l then Pow2(m - x) else 0)
    decreases l
  {
    OccSame(len, len + [x], 0, |len|, l);
    assert Count(len + [x], l) == Count(len, l) + (if x == l then 1 else 0);
    if x == l { assert (Count(len, l) + 1) * Pow2(m - l) == Count(len, l) * Pow2(m - l) + Pow2(m - l); }
    if l > 0 { TakenSnoc(len, x, m, l - 1); }
  }

  lemma {:induction false} TakenIsKraft(len: seq<int>, m: nat, k: nat)
    requires k <= |len| && LensIn(len, 0, m)
    ensures Taken(len[..k], m, m) == HuffmanForest.Kraft(len, m, k)
  {
    if k > 0 {
      TakenIsKraft(len, m, k - 1);
      assert len[..k] == len[..k - 1] + [len[k - 1]];
      TakenSnoc(len[..k - 1], len[k - 1], m, m);
    } else {
      assert len[..0] == [];
      TakenNone(m, m);
    }
  }

  lemma {:induction false} TakenNone(m: nat, l: nat)
    requires l <= m
    ensures Taken([], m, l) == 0
    decreases l
  {
    if l > 0 { TakenNone(m, l - 1); }
  }

  /** Lengths within the Kraft bound give every symbol a code that fits in its length. */
  lemma CodeFits(len: seq<int>, m: nat, s: nat)
    requires LensIn(len, 0, m) && s < |len|
    requires HuffmanForest.Kraft(len, m, |len|) <= Pow2(m)
    ensures Code(len, s) < Pow2(len[s])
  {
    var l := len[s];
    CodeInRange(len, s);
    TakenIsKraft(len, m, |len|);
    assert len[..|len|] == len;
    TakenGrows(len, m, l, m);
    TakenIsCodes(len, m, l);
    var x := First(len, l) + Count(len, l);
    if x > Pow2(l) {
      MulLess(Pow2(l), x, Pow2(m - l));
      Pow2Add(l, m - l);
    }
  }

  /** The bits sent for a symbol. */
  function CodeBits(len: seq<int>, s: nat): (r: seq<bool>)
    requires s < |len| && 0 <= len[s]
    ensures |r| == len[s]
  {
    ToBits(len[s], Code(len, s))
  }

  /** What is sent for a symbol starts with its code, so by PrefixFree with no other. */
  lemma CodeBitsStart(len: seq<int>, m: nat, s: nat, rest: seq<bool>)
    requires LensIn(len, 0, m) && s < |len|
    requires HuffmanForest.Kraft(len, m, |len|) <= Pow2(m)
    ensures StartsWith(len, s, CodeBits(len, s) + rest)
  {
    CodeFits(len, m, s);
    ValueToBits(len[s], Code(len, s));
    assert (CodeBits(len, s) + rest)[..len[s]] == CodeBits(len, s);
  }

  /** When the lengths use up the code space, every long enough bit string starts with a code. */
  lemma Complete(len: seq<int>, m: nat, bits: seq<bool>) returns (s: nat)
    requires LensIn(len, 1, m) && |bits| >= m
    requires HuffmanForest.Kraft(len, m, |len|) == Pow2(m)
    ensures StartsWith(len, s, bits)
  {
    TakenIsKraft(len, m, |len|);
    assert len[..|len|] == len;
    TakenIsCodes(len, m, m);
    assert First(len, m) + Count(len, m) == Pow2(m);
    ValueBound(bits[..m]);
    s := FindCode(len, m, m, bits);
  }

  lemma FindCode(len: seq<int>, m: nat, l: nat, bits: seq<bool>) returns (s: nat)
    requires LensIn(len, 1, m) && l <= |bits| && !Past(len, l, bits)
    ensures StartsWith(len, s, bits)
  {
    NoneAt(len, 0);
    assert Past(len, 0, bits);
    if Value(bits[..l]) >= First(len, l) {
      s := Nth(len, l, Value(bits[..l]) - First(len, l));
    } else {
      ValueNext(bits, l - 1);
      s := FindCode(len, m, l - 1, bits);
    }
  }
}
