/** The cyclic rotations of a block and their lexicographic order: what block sorting sorts by. */
module Rotations {

  type byte = b: int | 0 <= b < 256

  function Next(n: nat, i: nat): nat
    requires i < n
  {
    if i + 1 == n then 0 else i + 1
  }

  function Prev(n: nat, i: nat): nat
    requires i < n
  {
    if i == 0 then n - 1 else i - 1
  }

  /** The position h steps after i, going round. */
  function Advance(n: nat, i: nat, h: nat): (r: nat)
    requires i < n
    ensures r < n
    decreases h
  {
    if h == 0 then i else Advance(n, Next(n, i), h - 1)
  }

  lemma AdvanceClosed(n: nat, i: nat, h: nat)
    requires i < n && h <= n
    ensures Advance(n, i, h) == if i + h < n then i + h else i + h - n
    decreases h
  {
    if h > 0 { AdvanceClosed(n, Next(n, i), h - 1); }
  }

  lemma {:induction false} AdvanceStep(n: nat, i: nat, h: nat)
    requires i < n
    ensures Advance(n, i, h + 1) == Next(n, Advance(n, i, h))
    decreases h
  {
    if h > 0 { AdvanceStep(n, Next(n, i), h - 1); }
  }

  /** Three-way comparison of the first k bytes read round the block from i and from j. */
  function Cmp(b: seq<byte>, i: nat, j: nat, k: nat): (r: int)
    requires i < |b| && j < |b|
    ensures r == -1 || r == 0 || r == 1
    decreases k
  {
    if k == 0 then 0
    else if b[i] < b[j] then -1
    else if b[i] > b[j] then 1
    else Cmp(b, Next(|b|, i), Next(|b|, j), k - 1)
  }

  function Rotation(b: seq<byte>, i: nat): seq<byte>
    requires i < |b|
  {
    b[i..] + b[..i]
  }

  /** Dictionary order on byte strings of one length. */
  function Lex(s: seq<byte>, t: seq<byte>): (r: int)
    requires |s| == |t|
  {
    if s == [] then 0
    else if s[0] < t[0] then -1
    else if s[0] > t[0] then 1
    else Lex(s[1..], t[1..])
  }

  lemma {:induction false} CmpIsLexFrom(b: seq<byte>, i: nat, j: nat, s: seq<byte>, t: seq<byte>)
    requires i < |b| && j < |b| && |s| == |t| <= |b|
    requires forall m :: 0 <= m < |s| ==> s[m] == b[if i + m < |b| then i + m else i + m - |b|]
    requires forall m :: 0 <= m < |t| ==> t[m] == b[if j + m < |b| then j + m else j + m - |b|]
    ensures Cmp(b, i, j, |s|) == Lex(s, t)
    decreases |s|
  {
    if s != [] {
      CmpIsLexFrom(b, Next(|b|, i), Next(|b|, j), s[1..], t[1..]);
    }
  }

  lemma CmpRefl(b: seq<byte>, i: nat, k: nat)
    requires i < |b|
    ensures Cmp(b, i, i, k) == 0
    decreases k
  {
  }

  lemma CmpAnti(b: seq<byte>, i: nat, j: nat, k: nat)
    requires i < |b| && j < |b|
    ensures Cmp(b, i, j, k) == -Cmp(b, j, i, k)
    decreases k
  {
  }

  lemma {:induction false} CmpTrans(b: seq<byte>, i: nat, j: nat, l: nat, k: nat)
    requires i < |b| && j < |b| && l < |b|
    requires Cmp(b, i, j, k) <= 0 && Cmp(b, j, l, k) <= 0
    ensures Cmp(b, i, l, k) <= 0
    ensures Cmp(b, i, l, k) == 0 ==> Cmp(b, i, j, k) == 0 && Cmp(b, j, l, k) == 0
    decreases k
  {
    if k > 0 && b[i] == b[j] == b[l] {
      CmpTrans(b, Next(|b|, i), Next(|b|, j), Next(|b|, l), k - 1);
    }
  }

  /** Comparing h + k bytes is comparing h, and breaking a tie by the k bytes after them. */
  lemma {:induction false} CmpSplit(b: seq<byte>, i: nat, j: nat, h: nat, k: nat)
    requires i < |b| && j < |b|
    ensures Cmp(b, i, j, h + k)
         == if Cmp(b, i, j, h) != 0 then Cmp(b, i, j, h)
            else Cmp(b, Advance(|b|, i, h), Advance(|b|, j, h), k)
    decreases h
  {
    if h > 0 && b[i] == b[j] {
      CmpSplit(b, Next(|b|, i), Next(|b|, j), h - 1, k);
    }
  }

  /** Whole-block order: what a longer or a shifted comparison says about it. */
  lemma CmpPrefix(b: seq<byte>, i: nat, j: nat, k: nat, m: nat)
    requires i < |b| && j < |b| && k <= m
    ensures Cmp(b, i, j, m) <= 0 ==> Cmp(b, i, j, k) <= 0
    ensures Cmp(b, i, j, m) == 0 ==> Cmp(b, i, j, k) == 0
    ensures Cmp(b, i, j, k) != 0 ==> Cmp(b, i, j, m) == Cmp(b, i, j, k)
  {
    CmpSplit(b, i, j, k, m - k);
  }

  /** Rotations that agree on the whole block agree for ever. */
  lemma {:induction false} CmpFullEqual(b: seq<byte>, i: nat, j: nat)
    requires i < |b| && j < |b|
    requires Cmp(b, i, j, |b|) == 0
    ensures Cmp(b, Next(|b|, i), Next(|b|, j), |b|) == 0
    ensures Cmp(b, Prev(|b|, i), Prev(|b|, j), |b|) == 0
    ensures b[i] == b[j] && b[Prev(|b|, i)] == b[Prev(|b|, j)]
  {
    hide Advance;
    var n := |b|;
    var i', j' := Next(n, i), Next(n, j);
    // last byte of the rotations from i' and j' is b[i] and b[j]
    CmpSplit(b, i', j', n - 1, 1);
    AdvanceClosed(n, i', n - 1);
    AdvanceClosed(n, j', n - 1);
    assert n > 0 && Cmp(b, i, j, n) == Cmp(b, i', j', n - 1);
    // the byte before i and j is the last byte of their rotations
    CmpSplit(b, i, j, n - 1, 1);
    AdvanceClosed(n, i, n - 1);
    AdvanceClosed(n, j, n - 1);
    assert Cmp(b, Prev(n, i), Prev(n, j), n) == Cmp(b, i, j, n - 1);
  }

  /** p lists positions in nondecreasing order of the first k bytes read from them. */
  ghost predicate SortedBy(b: seq<byte>, p: seq<int>, k: nat)
    requires forall x :: 0 <= x < |p| ==> 0 <= p[x] < |b|
  {
    forall x, y :: 0 <= x < y < |p| ==> Cmp(b, p[x], p[y], k) <= 0
  }

  /** Cmp over the whole block is dictionary order on the rotations as strings. */
  lemma CmpIsLex(b: seq<byte>, i: nat, j: nat)
    requires i < |b| && j < |b|
    ensures Cmp(b, i, j, |b|) == Lex(Rotation(b, i), Rotation(b, j))
  {
    CmpIsLexFrom(b, i, j, Rotation(b, i), Rotation(b, j));
  }

  ghost predicate InOrder(b: seq<byte>, f: seq<int>, i: int, j: int)
    requires 0 <= i < |f| && 0 <= j < |f| && 0 <= f[i] < |b| && 0 <= f[j] < |b|
  {
    Lex(Rotation(b, f[i]), Rotation(b, f[j])) <= 0
  }

  /** What it means for a block to be sorted: its rotations, as strings, are listed in dictionary order. */
  lemma SortedMeans(b: seq<byte>, f: seq<int>)
    requires forall x :: 0 <= x < |f| ==> 0 <= f[x] < |b|
    ensures SortedBy(b, f, |b|) <==> forall i, j :: 0 <= i < j < |f| ==> InOrder(b, f, i, j)
  {
    hide Cmp, Lex, Rotation;
    forall i, j | 0 <= i < j < |f| ensures InOrder(b, f, i, j) <==> Cmp(b, f[i], f[j], |b|) <= 0 {
      CmpIsLex(b, f[i], f[j]);
    }
  }
}
