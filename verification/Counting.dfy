/** Counting sort: where each occurrence of a byte goes when a sequence is put in order of its bytes. */
module Counting {
  import opened Permutations

  /** How many entries of s are below c. */
  function Below(s: seq<int>, c: nat): (r: nat)
  {
    if c == 0 then 0 else Below(s, c - 1) + Occ(s, 0, |s|, c - 1)
  }

  ghost predicate AllBytes(s: seq<int>)
  {
    forall i :: 0 <= i < |s| ==> 0 <= s[i] < 256
  }

  lemma {:induction false} BelowMono(s: seq<int>, c: nat, d: nat)
    requires c <= d
    ensures Below(s, c) <= Below(s, d)
    ensures c < d ==> Below(s, c) + Occ(s, 0, |s|, c) <= Below(s, d)
    decreases d
  {
    if c < d { BelowMono(s, c, d - 1); }
  }

  lemma {:induction false} BelowOfSnoc(s: seq<int>, x: int, c: nat)
    requires 0 <= x
    ensures Below(s + [x], c) == Below(s, c) + (if x < c then 1 else 0)
    decreases c
  {
    if c > 0 {
      BelowOfSnoc(s, x, c - 1);
      OccSame(s, s + [x], 0, |s|, c - 1);
    }
  }

  lemma {:induction false} BelowAll(s: seq<int>)
    requires AllBytes(s)
    ensures Below(s, 256) == |s|
  {
    if s == [] {
      BelowEmpty(256);
    } else {
      var t := s[..|s| - 1];
      assert s == t + [s[|s| - 1]];
      BelowAll(t);
      BelowOfSnoc(t, s[|s| - 1], 256);
    }
  }

  lemma BelowEmpty(c: nat)
    ensures Below([], c) == 0
  {
  }

  lemma {:induction false} OccGrows(s: seq<int>, i: nat, j: nat, x: int)
    requires i <= j <= |s|
    ensures Occ(s, 0, i, x) <= Occ(s, 0, j, x)
    ensures i < j && s[i] == x ==> Occ(s, 0, i, x) < Occ(s, 0, j, x)
    decreases j
  {
    if i < j { OccGrows(s, i, j - 1, x); }
  }

  /** The place of entry i when equal bytes keep their order. */
  function Slot(s: seq<int>, i: nat): int
    requires i < |s| && 0 <= s[i]
  {
    Below(s, s[i]) + Occ(s, 0, i, s[i])
  }

  /** The place of entry i when equal bytes are put down from the end of their bucket. */
  function BackSlot(s: seq<int>, i: nat): int
    requires i < |s| && 0 <= s[i]
  {
    Below(s, s[i] + 1) - 1 - Occ(s, 0, i, s[i])
  }

  ghost predicate AllNat(s: seq<int>)
  {
    forall i :: 0 <= i < |s| ==> 0 <= s[i]
  }

  lemma {:induction false} BelowAtMost(s: seq<int>, c: nat)
    requires AllNat(s)
    ensures Below(s, c) <= |s|
  {
    if s == [] {
      BelowEmpty(c);
    } else {
      var t := s[..|s| - 1];
      assert s == t + [s[|s| - 1]];
      BelowAtMost(t, c);
      BelowOfSnoc(t, s[|s| - 1], c);
    }
  }

  lemma SlotRange(s: seq<int>, i: nat)
    requires i < |s| && AllNat(s)
    ensures Below(s, s[i]) <= Slot(s, i) < Below(s, s[i] + 1) <= |s|
    ensures Below(s, s[i]) <= BackSlot(s, i) < Below(s, s[i] + 1)
  {
    OccGrows(s, i, |s|, s[i]);
    BelowAtMost(s, s[i] + 1);
  }

  /** Slots are ordered by byte, then by position. */
  lemma SlotOrder(s: seq<int>, i: nat, j: nat)
    requires i < |s| && j < |s| && AllNat(s)
    ensures s[i] < s[j] || (s[i] == s[j] && i < j) ==> Slot(s, i) < Slot(s, j)
    ensures s[i] < s[j] || (s[i] == s[j] && i > j) ==> BackSlot(s, i) < BackSlot(s, j)
  {
    SlotRange(s, i);
    SlotRange(s, j);
    if s[i] < s[j] { BelowMono(s, s[i] + 1, s[j]); }
    if i < j { OccGrows(s, i, j, s[i]); } else { OccGrows(s, j, i, s[j]); }
  }

  /** Reading a sequence through a permutation does not change how often a value occurs. */
  lemma PermutedOcc(s: seq<int>, p: seq<int>, t: seq<int>, x: int)
    requires IsPermutation(p) && |p| == |s| == |t|
    requires forall i :: 0 <= i < |t| ==> t[i] == s[p[i]]
    ensures Occ(t, 0, |t|, x) == Occ(s, 0, |s|, x)
  {
    OccAtMost(s, p, t, x);
    var q := Inverse(p);
    forall i | 0 <= i < |s| ensures s[i] == t[q[i]] {
      assert p[q[i]] == i;
    }
    OccAtMost(t, q, s, x);
  }

  lemma OccAtMost(s: seq<int>, p: seq<int>, t: seq<int>, x: int)
    requires IsPermutation(p) && |p| == |s| == |t|
    requires forall i :: 0 <= i < |t| ==> t[i] == s[p[i]]
    ensures Occ(t, 0, |t|, x) <= Occ(s, 0, |s|, x)
  {
    var a, b := Where(t, |t|, x), Where(s, |s|, x);
    forall i, j | i in a && j in a && i != j ensures p[i] != p[j] {
      if i < j {} else { assert p[j] != p[i]; }
    }
    ImageCard(a, b, p, |p|);
  }

  /** The positions below hi at which s holds x. */
  function Where(s: seq<int>, hi: nat, x: int): (r: set<int>)
    requires hi <= |s|
    ensures r <= Range(0, hi)
    ensures forall i :: i in r <==> 0 <= i < hi && s[i] == x
    ensures |r| == Occ(s, 0, hi, x)
  {
    if hi == 0 then {} else Where(s, hi - 1, x) + (if s[hi - 1] == x then {hi - 1} else {})
  }

  lemma {:induction false} ImageCard(a: set<int>, b: set<int>, p: seq<int>, k: nat)
    requires k <= |p| && a <= Range(0, k)
    requires forall i :: i in a ==> p[i] in b
    requires forall i, j :: i in a && j in a && i != j ==> p[i] != p[j]
    ensures |a| <= |b|
    decreases k
  {
    if k == 0 {
      assert a == {};
    } else if k - 1 in a {
      ImageCard(a - {k - 1}, b - {p[k - 1]}, p, k - 1);
    } else {
      ImageCard(a, b, p, k - 1);
    }
  }

  lemma Inverse(p: seq<int>) returns (q: seq<int>)
    requires IsPermutation(p)
    ensures IsPermutation(q) && |q| == |p|
    ensures forall i :: 0 <= i < |p| ==> q[p[i]] == i
    ensures forall x :: 0 <= x < |p| ==> p[q[x]] == x
  {
    q := InversePrefix(p, |p|);
    forall i | 0 <= i < |p| ensures q[p[i]] == i {
      assert p[q[p[i]]] == p[i];
    }
  }

  lemma InversePrefix(p: seq<int>, n: nat) returns (q: seq<int>)
    requires IsPermutation(p) && n <= |p|
    ensures |q| == n
    ensures forall x :: 0 <= x < n ==> 0 <= q[x] < |p| && p[q[x]] == x
  {
    q := [];
    if n > 0 {
      q := InversePrefix(p, n - 1);
      var i := PermutationHits(p, n - 1);
      q := q + [i];
    }
  }
}
