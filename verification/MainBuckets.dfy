/** The buckets of mainSort: rotations by their first two bytes, and when the order within buckets is the order of all. */
module MainBuckets {
  import opened Permutations
  import opened Counting
  import opened Rotations
  import opened MainOrder
  import opened MainQSort
  import Q = FallbackQSort

  /** The first two bytes of each rotation, as a number. */
  ghost function Pairs(b: seq<byte>): (r: seq<int>)
    ensures |r| == |b| && forall x :: 0 <= x < |b| ==> r[x] == (b[x] as int) * 256 + b[Next(|b|, x)]
  {
    seq(|b|, x requires 0 <= x < |b| => (b[x] as int) * 256 + b[Next(|b|, x)])
  }

  lemma PairsNat(b: seq<byte>)
    ensures AllNat(Pairs(b)) && forall x :: 0 <= x < |b| ==> Pairs(b)[x] < 65536
  {
    forall x | 0 <= x < |b| ensures 0 <= Pairs(b)[x] < 65536 {
      assert 0 <= b[x] < 256 && 0 <= b[Next(|b|, x)] < 256;
    }
  }

  /** Where small bucket sb starts. */
  ghost function Start(b: seq<byte>, sb: nat): (r: nat)
  {
    Below(Pairs(b), sb)
  }

  lemma StartMono(b: seq<byte>, s: nat, t: nat)
    requires s <= t
    ensures Start(b, s) <= Start(b, t) <= |b|
  {
    hide Pairs;
    PairsNat(b);
    BelowMono(Pairs(b), s, t);
    BelowAtMost(Pairs(b), t);
  }

  lemma {:induction false} BelowFull(s: seq<int>, m: nat)
    requires forall i :: 0 <= i < |s| ==> 0 <= s[i] < m
    ensures Below(s, m) == |s|
  {
    if s == [] {
      BelowEmpty(m);
    } else {
      var t := s[..|s| - 1];
      assert s == t + [s[|s| - 1]];
      BelowFull(t, m);
      BelowOfSnoc(t, s[|s| - 1], m);
    }
  }

  /** Entry k of f lies in its rotation's bucket. */
  ghost predicate InPlace(b: seq<byte>, f: seq<int>, k: int)
  {
    0 <= k < |f| && 0 <= f[k] < |b| && 0 <= Pairs(b)[f[k]] && Start(b, Pairs(b)[f[k]]) <= k < Start(b, Pairs(b)[f[k]] + 1)
  }

  /** f lists every rotation once, each in its bucket. */
  ghost predicate Bucketed(b: seq<byte>, f: seq<int>)
  {
    && |f| == |b| && (forall k :: 0 <= k < |f| ==> InPlace(b, f, k))
    && forall i, j :: 0 <= i < j < |f| ==> f[i] != f[j]
  }

  lemma BucketedPermutation(b: seq<byte>, f: seq<int>)
    requires Bucketed(b, f)
    ensures IsPermutation(f)
  {
    hide Pairs, Start;
    forall i | 0 <= i < |f| ensures 0 <= f[i] < |f| { assert InPlace(b, f, i); }
  }

  /** Which bucket a place belongs to is fixed. */
  lemma SamePlace(b: seq<byte>, f: seq<int>, k: int, sb: nat)
    requires InPlace(b, f, k) && Start(b, sb) <= k < Start(b, sb + 1)
    ensures Pairs(b)[f[k]] == sb
  {
    hide Pairs, Start;
    var p := Pairs(b)[f[k]];
    if p < sb { StartMono(b, p + 1, sb); }
    if sb < p { StartMono(b, sb + 1, p); }
  }

  lemma PairsEqual(b: seq<byte>, x: nat, y: nat)
    requires x < |b| && y < |b| && Pairs(b)[x] == Pairs(b)[y]
    ensures b[x] == b[y] && b[Next(|b|, x)] == b[Next(|b|, y)] && Cmp(b, x, y, 2) == 0
  {
    DivTwo(b[x], b[Next(|b|, x)], b[y], b[Next(|b|, y)]);
  }

  lemma DivTwo(p: int, q: int, r: int, s: int)
    requires 0 <= p < 256 && 0 <= q < 256 && 0 <= r < 256 && 0 <= s < 256
    ensures p * 256 + q == r * 256 + s ==> p == r && q == s
    ensures p * 256 + q < r * 256 + s <==> p < r || (p == r && q < s)
  {
  }

  /** Rotations of different buckets are in order of their buckets. */
  lemma PairsOrder(b: seq<byte>, x: nat, y: nat)
    requires x < |b| && y < |b| && Pairs(b)[x] < Pairs(b)[y]
    ensures Rank(b)[x] < Rank(b)[y]
  {
    hide Rank;
    var n := |b|;
    DivTwo(b[x], b[Next(n, x)], b[y], b[Next(n, y)]);
    RankStep(b, x, y);
    RankStep(b, y, x);
    RankStep(b, Next(n, x), Next(n, y));
  }

  /** The rotations of one bucket agree on two bytes. */
  lemma BucketAgrees(b: seq<byte>, f: seq<int>, g: seq<int>, sb: nat)
    requires Bucketed(b, f) && |f| <= |g| && forall k :: 0 <= k < |f| ==> g[k] == f[k]
    ensures Agree(b, g, Start(b, sb), Start(b, sb + 1) - 1, 2)
  {
    hide Pairs, Start, Cmp;
    var lo, hi := Start(b, sb), Start(b, sb + 1) - 1;
    StartMono(b, sb, sb + 1);
    forall t | lo <= t <= hi ensures 0 <= g[t] < |b| && Pairs(b)[g[t]] == sb {
      assert InPlace(b, f, t);
      SamePlace(b, f, t, sb);
    }
    forall s, t | lo <= s <= hi && lo <= t <= hi ensures Cmp(b, g[s], g[t], 2) == 0 {
      PairsEqual(b, g[s], g[t]);
    }
  }

  /** Small bucket sb is in order. */
  ghost predicate BucketSorted(b: seq<byte>, f: seq<int>, sb: nat)
  {
    SortedByOrder(b, f, Start(b, sb), Start(b, sb + 1))
  }

  /** Places i < j of one stretch of buckets, each of them in order, are in order. */
  lemma AcrossBuckets(b: seq<byte>, f: seq<int>, i: int, j: int)
    requires Bucketed(b, f) && 0 <= i < j < |f|
    requires Pairs(b)[InPlaceAt(b, f, i)] == Pairs(b)[InPlaceAt(b, f, j)] ==> BucketSorted(b, f, Pairs(b)[InPlaceAt(b, f, i)])
    ensures Rank(b)[f[i]] <= Rank(b)[f[j]]
  {
    hide Pairs, Start, Rank;
    var p, q := Pairs(b)[f[i]], Pairs(b)[f[j]];
    assert InPlace(b, f, i) && InPlace(b, f, j);
    if p < q {
      PairsOrder(b, f[i], f[j]);
    } else if q < p {
      StartMono(b, q + 1, p);
      assert false;
    }
  }

  ghost function InPlaceAt(b: seq<byte>, f: seq<int>, k: int): (x: nat)
    requires Bucketed(b, f) && 0 <= k < |f|
    ensures x == f[k] < |b| && Pairs(b)[x] >= 0
  {
    assert InPlace(b, f, k);
    f[k]
  }

  /** When every small bucket is in order, so is the whole list. */
  lemma AllSorted(b: seq<byte>, f: seq<int>)
    requires Bucketed(b, f) && forall sb: nat :: sb < 65536 ==> BucketSorted(b, f, sb)
    ensures IsPermutation(f) && SortedBy(b, f, |b|)
  {
    hide Pairs, Start, Rank, Cmp, BucketSorted;
    BucketedPermutation(b, f);
    PairsNat(b);
    forall i, j | 0 <= i < j < |f| ensures Rank(b)[f[i]] <= Rank(b)[f[j]] {
      AcrossBuckets(b, f, i, j);
    }
    RankedIsSorted(b, f);
  }

  /** Reordering within one bucket keeps the list bucketed and the other buckets as they are. */
  lemma ReorderBucket(b: seq<byte>, f: seq<int>, g: seq<int>, sb: nat)
    requires Bucketed(b, f) && |g| == |f| && Start(b, sb) <= Start(b, sb + 1) <= |f|
    requires Rearranged(f, g, Start(b, sb), Start(b, sb + 1))
    ensures Bucketed(b, g)
  {
    hide Pairs, Start;
    BucketedPermutation(b, f);
    var lo, hi := Start(b, sb), Start(b, sb + 1);
    RearrangedPermutation(f, g, lo, hi);
    forall k | 0 <= k < |g| ensures InPlace(b, g, k) {
      assert InPlace(b, f, k);
      if lo <= k < hi {
        var i := RearrangedSource(f, g, lo, hi, k);
        assert InPlace(b, f, i);
        SamePlace(b, f, i, sb);
      }
    }
  }

  lemma OtherSorted(b: seq<byte>, f: seq<int>, g: seq<int>, sb: nat, lo: int, hi: int)
    requires BucketSorted(b, f, sb) && |g| == |f| && (Start(b, sb + 1) <= lo || hi <= Start(b, sb))
    requires forall k :: 0 <= k < |f| && (k < lo || hi <= k) ==> g[k] == f[k]
    ensures BucketSorted(b, g, sb)
  {
    hide Start, Rank;
  }

  /** Different buckets lie apart. */
  lemma Apart(b: seq<byte>, s: nat, t: nat)
    requires s != t
    ensures Start(b, s + 1) <= Start(b, t) || Start(b, t + 1) <= Start(b, s)
  {
    if s < t { StartMono(b, s + 1, t); } else { StartMono(b, t + 1, s); }
  }

  /** A bucket has as many places as there are rotations for it. */
  lemma BucketSize(b: seq<byte>, sb: nat)
    ensures Start(b, sb + 1) - Start(b, sb) == |Members(b, sb)|
  {
  }

  ghost function Members(b: seq<byte>, sb: nat): (r: set<int>)
    ensures forall x :: x in r <==> 0 <= x < |b| && Pairs(b)[x] == sb
    ensures |r| == Occ(Pairs(b), 0, |b|, sb)
  {
    Where(Pairs(b), |b|, sb)
  }

  /** s lists distinct rotations of small bucket sb. */
  ghost predicate AreMembers(b: seq<byte>, sb: nat, s: seq<int>)
  {
    && (forall i :: 0 <= i < |s| ==> 0 <= s[i] < |b| && Pairs(b)[s[i]] == sb)
    && forall i, j :: 0 <= i < j < |s| ==> s[i] != s[j]
  }

  /** Distinct members fit into their bucket, and fill it when they are all of them. */
  lemma MembersFit(b: seq<byte>, sb: nat, s: seq<int>)
    requires AreMembers(b, sb, s)
    ensures |s| <= Start(b, sb + 1) - Start(b, sb)
    ensures (forall x :: 0 <= x < |b| && Pairs(b)[x] == sb ==> x in s) ==> |s| == Start(b, sb + 1) - Start(b, sb)
  {
    hide Pairs, Start;
    BucketSize(b, sb);
    DistinctCard(s);
    var vals := set x | x in s;
    SubsetCard(vals, Members(b, sb));
    if forall x :: 0 <= x < |b| && Pairs(b)[x] == sb ==> x in s {
      SubsetCard(Members(b, sb), vals);
    }
  }
}
