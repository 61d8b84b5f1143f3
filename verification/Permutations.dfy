/** Rearrangements of sequences: what a sort may do, and the pigeonhole facts the sorts and the inverse
    Burrows-Wheeler walk rest on. */
module Permutations {

  /** p lists every number below |p| exactly once. */
  ghost predicate IsPermutation(p: seq<int>)
  {
    && (forall i :: 0 <= i < |p| ==> 0 <= p[i] < |p|)
    && (forall i, j :: 0 <= i < j < |p| ==> p[i] != p[j])
  }

  /** How often x occurs at positions lo..hi-1 of s. */
  function Occ(s: seq<int>, lo: int, hi: int, x: int): (r: nat)
    requires 0 <= lo && hi <= |s|
    decreases hi - lo
  {
    if hi <= lo then 0 else Occ(s, lo, hi - 1, x) + (if s[hi - 1] == x then 1 else 0)
  }

  /** t is s with only the positions lo..hi-1 reordered. */
  ghost predicate Rearranged(s: seq<int>, t: seq<int>, lo: int, hi: int)
    requires 0 <= lo <= hi <= |s|
  {
    && |t| == |s|
    && (forall i :: 0 <= i < lo || hi <= i < |s| ==> t[i] == s[i])
    && (forall x :: Occ(t, lo, hi, x) == Occ(s, lo, hi, x))
  }

  function Swap(s: seq<int>, i: nat, j: nat): (t: seq<int>)
    requires i < |s| && j < |s|
    ensures |t| == |s|
  {
    s[i := s[j]][j := s[i]]
  }

  lemma {:induction false} OccSame(s: seq<int>, t: seq<int>, lo: int, hi: int, x: int)
    requires 0 <= lo && hi <= |s| && hi <= |t|
    requires forall i :: lo <= i < hi ==> s[i] == t[i]
    ensures Occ(s, lo, hi, x) == Occ(t, lo, hi, x)
    decreases hi - lo
  {
    if lo < hi { OccSame(s, t, lo, hi - 1, x); }
  }

  lemma {:induction false} OccSplit(s: seq<int>, lo: int, mid: int, hi: int, x: int)
    requires 0 <= lo <= mid <= hi <= |s|
    ensures Occ(s, lo, hi, x) == Occ(s, lo, mid, x) + Occ(s, mid, hi, x)
    decreases hi - mid
  {
    if mid < hi { OccSplit(s, lo, mid, hi - 1, x); }
  }

  lemma {:induction false} OccUpdate(s: seq<int>, lo: int, hi: int, i: int, v: int, x: int)
    requires 0 <= lo <= i < hi <= |s|
    ensures Occ(s[i := v], lo, hi, x)
         == Occ(s, lo, hi, x) - (if s[i] == x then 1 else 0) + (if v == x then 1 else 0)
    decreases hi - lo
  {
    if i == hi - 1 {
      OccSame(s, s[i := v], lo, hi - 1, x);
    } else {
      OccUpdate(s, lo, hi - 1, i, v, x);
    }
  }

  lemma {:induction false} OccWitness(s: seq<int>, lo: int, hi: int, x: int) returns (j: int)
    requires 0 <= lo <= hi <= |s|
    requires Occ(s, lo, hi, x) > 0
    ensures lo <= j < hi && s[j] == x
    decreases hi - lo
  {
    if s[hi - 1] == x { j := hi - 1; } else { j := OccWitness(s, lo, hi - 1, x); }
  }

  lemma {:induction false} OccPositive(s: seq<int>, lo: int, hi: int, i: int)
    requires 0 <= lo <= i < hi <= |s|
    ensures Occ(s, lo, hi, s[i]) > 0
    decreases hi - lo
  {
    if i < hi - 1 { OccPositive(s, lo, hi - 1, i); }
  }

  lemma SwapRearranges(s: seq<int>, i: nat, j: nat, lo: nat, hi: nat)
    requires lo <= i < hi && lo <= j < hi <= |s|
    ensures Rearranged(s, Swap(s, i, j), lo, hi)
  {
    forall x ensures Occ(Swap(s, i, j), lo, hi, x) == Occ(s, lo, hi, x) {
      OccUpdate(s, lo, hi, i, s[j], x);
      OccUpdate(s[i := s[j]], lo, hi, j, s[i], x);
    }
  }

  lemma RearrangedTrans(s: seq<int>, t: seq<int>, u: seq<int>, lo: nat, hi: nat)
    requires lo <= hi <= |s|
    requires Rearranged(s, t, lo, hi) && Rearranged(t, u, lo, hi)
    ensures Rearranged(s, u, lo, hi)
  {
  }

  /** Reordering part of a stretch reorders the stretch. */
  lemma RearrangedWiden(s: seq<int>, t: seq<int>, lo: nat, hi: nat, lo': nat, hi': nat)
    requires lo' <= lo <= hi <= hi' <= |s|
    requires Rearranged(s, t, lo, hi)
    ensures Rearranged(s, t, lo', hi')
  {
    forall x ensures Occ(t, lo', hi', x) == Occ(s, lo', hi', x) {
      OccSplit(s, lo', lo, hi', x);
      OccSplit(s, lo, hi, hi', x);
      OccSplit(t, lo', lo, hi', x);
      OccSplit(t, lo, hi, hi', x);
      OccSame(s, t, lo', lo, x);
      OccSame(s, t, hi, hi', x);
    }
  }

  /** Every value of the reordered stretch was there before. */
  lemma RearrangedSource(s: seq<int>, t: seq<int>, lo: nat, hi: nat, i: nat) returns (j: nat)
    requires lo <= i < hi <= |s|
    requires Rearranged(s, t, lo, hi)
    ensures lo <= j < hi && t[i] == s[j]
  {
    OccPositive(t, lo, hi, i);
    j := OccWitness(s, lo, hi, t[i]);
  }

  lemma {:induction false} OccOfDistinct(s: seq<int>, hi: nat, x: int)
    requires hi <= |s|
    requires forall i, j :: 0 <= i < j < hi ==> s[i] != s[j]
    ensures Occ(s, 0, hi, x) <= 1
  {
    if hi > 0 {
      OccOfDistinct(s, hi - 1, x);
      if x == s[hi - 1] && Occ(s, 0, hi - 1, x) > 0 {
        var j := OccWitness(s, 0, hi - 1, x);
      }
    }
  }

  lemma Twice(s: seq<int>, i: nat, j: nat)
    requires i < j < |s| && s[i] == s[j]
    ensures Occ(s, 0, |s|, s[i]) >= 2
  {
    OccSplit(s, 0, j, |s|, s[i]);
    OccPositive(s, 0, j, i);
    OccPositive(s, j, |s|, j);
  }

  lemma RearrangedPermutation(s: seq<int>, t: seq<int>, lo: nat, hi: nat)
    requires lo <= hi <= |s|
    requires IsPermutation(s) && Rearranged(s, t, lo, hi)
    ensures IsPermutation(t)
  {
    RearrangedWiden(s, t, lo, hi, 0, |s|);
    forall i | 0 <= i < |t| ensures 0 <= t[i] < |t| {
      var j := RearrangedSource(s, t, 0, |s|, i);
    }
    forall i, j | 0 <= i < j < |t| ensures t[i] != t[j] {
      if t[i] == t[j] {
        Twice(t, i, j);
        OccOfDistinct(s, |s|, t[i]);
      }
    }
  }

  /** The numbers lo..hi-1 as a set. */
  function Range(lo: int, hi: int): (r: set<int>)
    requires lo <= hi
    ensures |r| == hi - lo
    ensures forall x :: x in r <==> lo <= x < hi
    decreases hi - lo
  {
    if lo == hi then {} else Range(lo, hi - 1) + {hi - 1}
  }

  lemma DistinctCard(s: seq<int>)
    requires forall i, j :: 0 <= i < j < |s| ==> s[i] != s[j]
    ensures |set x | x in s| == |s|
  {
    if s != [] {
      var k := |s| - 1;
      assert s == s[..k] + [s[k]];
      DistinctCard(s[..k]);
      assert s[k] !in s[..k];
      assert (set x | x in s) == (set x | x in s[..k]) + {s[k]};
    } else {
      assert (set x | x in s) == {};
    }
  }

  lemma SubsetCard<T>(a: set<T>, b: set<T>)
    requires a <= b
    ensures |a| <= |b|
    ensures |a| == |b| ==> a == b
  {
    assert b == a + (b - a);
    assert |b| == |a| + |b - a|;
  }

  /** A permutation reaches every number below its length. */
  lemma PermutationHits(p: seq<int>, x: int) returns (i: nat)
    requires IsPermutation(p) && 0 <= x < |p|
    ensures i < |p| && p[i] == x
  {
    DistinctCard(p);
    var vals := set y | y in p;
    assert vals <= Range(0, |p|);
    SubsetCard(vals, Range(0, |p|));
    assert x in vals;
    i :| 0 <= i < |p| && p[i] == x;
  }

  /** Conversely, reaching every number below its length makes a sequence a permutation. */
  lemma HitsAllIsPermutation(p: seq<int>)
    requires forall x :: 0 <= x < |p| ==> x in p
    ensures IsPermutation(p)
  {
    var vals := set y | y in p;
    assert Range(0, |p|) <= vals;
    SubsetCard(Range(0, |p|), vals);
    SetCardAtMost(p);
    assert vals == Range(0, |p|);
    forall i | 0 <= i < |p| ensures 0 <= p[i] < |p| {
      assert p[i] in vals;
    }
    forall i, j | 0 <= i < j < |p| ensures p[i] != p[j] {
      if p[i] == p[j] {
        var q := p[..j] + p[j + 1..];
        assert forall y :: y in p <==> y in q by {
          assert p == p[..j] + [p[j]] + p[j + 1..];
          assert p[..j][i] == p[j];
        }
        assert vals == set y | y in q;
        SetCardAtMost(q);
      }
    }
  }

  lemma SetCardAtMost(s: seq<int>)
    ensures |set x | x in s| <= |s|
  {
    if s != [] {
      var k := |s| - 1;
      assert s == s[..k] + [s[k]];
      SetCardAtMost(s[..k]);
      assert (set x | x in s) == (set x | x in s[..k]) + {s[k]};
    } else {
      assert (set x | x in s) == {};
    }
  }
}
