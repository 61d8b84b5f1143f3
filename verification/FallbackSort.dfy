/** fallbackSort: block sorting by refining buckets, doubling the depth at every pass. */
module FallbackSort {
  import opened Permutations
  import opened Counting
  import opened Rotations
  import opened ByteOverlay
  import Bits
  import Q = FallbackQSort

  /** The first |b| bytes of the storage are the block. */
  ghost predicate Holds(e: seq<int>, b: seq<byte>)
  {
    |b| <= 4 * |e| && forall i :: 0 <= i < |b| ==> ByteAt(e, i) == b[i]
  }

  /** The rotations at ranks p - 1 and p differ somewhere in their first k bytes. */
  ghost predicate Differs(b: seq<byte>, f: seq<int>, p: int, k: nat)
  {
    && 1 <= p < |f| && 0 <= f[p - 1] < |b| && 0 <= f[p] < |b|
    && Cmp(b, f[p - 1], f[p], k) != 0
  }

  // ----- the one-byte radix sort

  /** Every position sits in its byte's bucket, later positions first. */
  ghost predicate Radixed(b: seq<byte>, f: seq<int>)
  {
    |f| == |b| && forall m :: 0 <= m < |b| ==> 0 <= BackSlot(b, m) < |f| && f[BackSlot(b, m)] == m
  }

  lemma RadixPermutation(b: seq<byte>, f: seq<int>)
    requires Radixed(b, f)
    ensures IsPermutation(f)
    ensures forall p :: 0 <= p < |f| ==> BackSlot(b, f[p]) == p
  {
    forall x | 0 <= x < |f| ensures x in f {
      assert f[BackSlot(b, x)] == x;
    }
    HitsAllIsPermutation(f);
    forall p | 0 <= p < |f| ensures BackSlot(b, f[p]) == p {
      var k := BackSlot(b, f[p]);
      assert f[k] == f[p];
    }
  }

  /** Rank p is where the bucket of some byte below hi begins. */
  ghost predicate BucketStart(b: seq<byte>, hi: nat, p: int)
  {
    exists c :: 0 <= c < hi && Below(b, c) == p
  }

  lemma RadixHeader(b: seq<byte>, f: seq<int>, p: int)
    requires Radixed(b, f) && IsPermutation(f) && 1 <= p < |f|
    ensures Differs(b, f, p, 1) <==> BucketStart(b, 256, p)
  {
    RadixPermutation(b, f);
    var u, v := f[p - 1], f[p];
    SlotRange(b, u);
    SlotRange(b, v);
    assert BackSlot(b, u) == p - 1 && BackSlot(b, v) == p;
    assert Differs(b, f, p, 1) <==> b[u] != b[v];
    SlotOrder(b, v, u);
    if b[u] != b[v] {
      BelowMono(b, b[u] + 1, b[v]);
      assert Below(b, b[v]) == p;
    } else if BucketStart(b, 256, p) {
      var c :| 0 <= c < 256 && Below(b, c) == p;
      if c <= b[u] { BelowMono(b, c, b[u]); } else { BelowMono(b, b[v] + 1, c); }
    }
  }

  /** The radix order is the order of rotations by first byte, and the bucket starts are where that byte changes. */
  lemma RadixSorted(b: seq<byte>, f: seq<int>)
    requires Radixed(b, f)
    ensures IsPermutation(f) && SortedBy(b, f, 1)
    ensures forall p :: 1 <= p < |f| ==> (Differs(b, f, p, 1) <==> BucketStart(b, 256, p))
  {
    RadixPermutation(b, f);
    forall x, y | 0 <= x < y < |f| ensures Cmp(b, f[x], f[y], 1) <= 0 {
      assert BackSlot(b, f[x]) == x && BackSlot(b, f[y]) == y;
      SlotOrder(b, f[y], f[x]);
    }
    forall p | 1 <= p < |f| ensures Differs(b, f, p, 1) <==> BucketStart(b, 256, p) {
      RadixHeader(b, f, p);
    }
  }

  method CountBytes(eclass: array<int>, ghost b: seq<byte>, n: nat) returns (ftab: array<int>)
    requires n == |b| && Holds(eclass[..], b)
    ensures fresh(ftab) && ftab.Length == 257
    ensures forall c :: 0 <= c < 257 ==> ftab[c] == Occ(b, 0, n, c)
  {
    ftab := new int[257](_ => 0);
    var i := 0;
    while i < n
      invariant 0 <= i <= n
      invariant forall c :: 0 <= c < 257 ==> ftab[c] == Occ(b, 0, i, c)
    {
      var c := ByteAt(eclass[..], i);
      assert c == b[i];
      ftab[c] := ftab[c] + 1;
      i := i + 1;
    }
  }

  method Cumulate(ftab: array<int>, ghost b: seq<byte>)
    requires ftab.Length == 257
    requires forall c :: 0 <= c < 257 ==> ftab[c] == Occ(b, 0, |b|, c)
    modifies ftab
    ensures forall c :: 0 <= c < 257 ==> ftab[c] == Below(b, c + 1)
  {
    var i := 1;
    assert Below(b, 1) == Occ(b, 0, |b|, 0);
    while i < 257
      invariant 1 <= i <= 257
      invariant forall c :: 0 <= c < i ==> ftab[c] == Below(b, c + 1)
      invariant forall c :: i <= c < 257 ==> ftab[c] == Occ(b, 0, |b|, c)
    {
      ftab[i] := ftab[i] + ftab[i - 1];
      i := i + 1;
    }
  }

  method PlaceBytes(fmap: array<int>, eclass: array<int>, ftab: array<int>, ghost b: seq<byte>, n: nat)
    requires fmap != eclass && ftab != eclass && fmap != ftab
    requires n == |b| <= fmap.Length && Holds(eclass[..], b)
    requires ftab.Length == 257 && forall c :: 0 <= c < 257 ==> ftab[c] == Below(b, c + 1)
    modifies fmap, ftab
    ensures Radixed(b, fmap[..n])
    ensures forall c :: 0 <= c < 256 ==> ftab[c] == Below(b, c)
    ensures fmap[n..] == old(fmap[n..])
  {
    hide ByteAt;
    var i := 0;
    while i < n
      invariant 0 <= i <= n && Holds(eclass[..], b) && fmap[n..] == old(fmap[n..])
      invariant forall c :: 0 <= c < 256 ==> ftab[c] == Below(b, c + 1) - Occ(b, 0, i, c)
      invariant forall m :: 0 <= m < i ==> 0 <= BackSlot(b, m) < n && fmap[BackSlot(b, m)] == m
    {
      var j := ByteAt(eclass[..], i);
      assert j == b[i];
      var k := ftab[j] - 1;
      assert k == BackSlot(b, i);
      SlotRange(b, i);
      forall m | 0 <= m < i ensures BackSlot(b, m) != k {
        SlotOrder(b, m, i);
        SlotOrder(b, i, m);
      }
      ftab[j] := k;
      fmap[k] := i;
      i := i + 1;
    }
  }

  // ----- the header bits

  /** Bits at n, n+2, ... are set and those between them clear: the sentinel that ends every scan. */
  ghost predicate Sentinel(bh: seq<bool>, n: nat)
  {
    && |bh| % 32 == 0 && n + 64 <= |bh|
    && bh[n] && !bh[n + 1]
  }

  lemma NextStart(b: seq<byte>, c: nat, p: int)
    ensures BucketStart(b, c + 1, p) <==> BucketStart(b, c, p) || Below(b, c) == p
  {
    hide Below;
    if BucketStart(b, c, p) {
      var d :| 0 <= d < c && Below(b, d) == p;
      assert 0 <= d < c + 1;
    }
  }

  method MarkBuckets(bh: array<bool>, ftab: array<int>, ghost b: seq<byte>, n: nat)
    requires n == |b| && bh.Length % 32 == 0 && n + 96 <= bh.Length
    requires ftab.Length == 257 && forall c :: 0 <= c < 256 ==> ftab[c] == Below(b, c)
    modifies bh
    ensures Sentinel(bh[..], n)
    ensures forall p :: 0 <= p < n ==> (bh[p] <==> BucketStart(b, 256, p))
  {
    BelowAll(b);
    var nBhtab := 2 + n / 32;
    var i := 0;
    while i < 32 * nBhtab
      invariant 0 <= i <= 32 * nBhtab
      invariant forall p :: 0 <= p < i ==> !bh[p]
    {
      bh[i] := false;
      i := i + 1;
    }
    i := 0;
    while i < 256
      invariant 0 <= i <= 256
      invariant forall p :: 0 <= p < n ==> (bh[p] <==> BucketStart(b, i, p))
    {
      BelowMono(b, i, 256);
      bh[ftab[i]] := true;
      forall p ensures BucketStart(b, i + 1, p) <==> BucketStart(b, i, p) || Below(b, i) == p { NextStart(b, i, p); }
      i := i + 1;
    }
    label Buckets:
    i := 0;
    while i < 32
      invariant 0 <= i <= 32
      invariant i > 0 ==> bh[n] && !bh[n + 1]
      invariant forall p :: 0 <= p < n ==> bh[p] == old@Buckets(bh[p])
    {
      bh[n + 2 * i] := true;
      bh[n + 2 * i + 1] := false;
      i := i + 1;
    }
  }

  /** The 32 bits of the word that starts at k all equal v. */
  predicate WordIs(bh: seq<bool>, k: nat, v: bool)
    requires k + 32 <= |bh|
  {
    forall t :: k <= t < k + 32 ==> bh[t] == v
  }

  /** The next position from k0 on whose bit is not v: bit by bit to a word boundary, word by word, bit by bit. */
  method SkipBits(bh: array<bool>, k0: nat, v: bool, ghost stop: nat) returns (k: nat)
    requires bh.Length % 32 == 0 && k0 <= stop < bh.Length && bh[stop] != v
    ensures k0 <= k <= stop && bh[k] != v
    ensures forall t :: k0 <= t < k ==> bh[t] == v
  {
    k := k0;
    while bh[k] == v && k % 32 != 0
      invariant k0 <= k <= stop
      invariant forall t :: k0 <= t < k ==> bh[t] == v
      decreases stop - k
    {
      k := k + 1;
    }
    if bh[k] == v {
      while WordIs(bh[..], k, v)
        invariant k0 <= k <= stop && k % 32 == 0
        invariant forall t :: k0 <= t < k ==> bh[t] == v
        decreases stop - k
      {
        assert bh[stop] == bh[..][stop];
        k := k + 32;
        assert k - 32 <= stop;
      }
      while bh[k] == v
        invariant k0 <= k <= stop
        invariant forall t :: k0 <= t < k ==> bh[t] == v
        decreases stop - k
      {
        k := k + 1;
      }
    }
  }

  // ----- the classes of one depth

  /** The last set bit at or before i: the rank that names i's bucket. */
  function Head(bh: seq<bool>, i: nat): (r: nat)
    requires i < |bh|
    ensures r <= i
  {
    if bh[i] || i == 0 then i else Head(bh, i - 1)
  }

  lemma {:induction false} HeadMono(bh: seq<bool>, i: nat, j: nat)
    requires i <= j < |bh|
    ensures Head(bh, i) <= Head(bh, j)
    ensures (forall t :: i < t <= j ==> !bh[t]) ==> Head(bh, i) == Head(bh, j)
    ensures forall t :: i < t <= j && bh[t] ==> t <= Head(bh, j)
    decreases j
  {
    if i < j { HeadMono(bh, i, j - 1); }
  }

  /** f is a permutation sorted on the first k bytes, and bit p of bh says whether ranks p - 1 and p differ there. */
  ghost predicate Ranked(b: seq<byte>, f: seq<int>, bh: seq<bool>, k: nat)
  {
    && IsPermutation(f) && |f| == |b| && |b| > 0
    && Sentinel(bh, |b|) && bh[0]
    && SortedBy(b, f, k)
    && (forall p :: 1 <= p < |f| ==> (bh[p] <==> Differs(b, f, p, k)))
  }

  lemma {:induction false} SameBucket(b: seq<byte>, f: seq<int>, k: nat, i: nat, j: nat)
    requires IsPermutation(f) && |f| == |b| && i < |f| && j < |f|
    requires forall t :: i < t <= j || j < t <= i ==> !Differs(b, f, t, k)
    ensures Cmp(b, f[i], f[j], k) == 0
    decreases if i < j then j - i else i - j
  {
    if i < j {
      SameBucket(b, f, k, i, j - 1);
      assert !Differs(b, f, j, k);
      CmpZeroTrans(b, f[i], f[j - 1], f[j], k);
    } else if j < i {
      SameBucket(b, f, k, i - 1, j);
      assert !Differs(b, f, i, k);
      CmpAnti(b, f[i - 1], f[i], k);
      CmpZeroTrans(b, f[i], f[i - 1], f[j], k);
    } else {
      CmpRefl(b, f[i], k);
    }
  }

  lemma CmpZeroTrans(b: seq<byte>, x: nat, y: nat, z: nat, k: nat)
    requires x < |b| && y < |b| && z < |b|
    requires Cmp(b, x, y, k) == 0 && Cmp(b, y, z, k) == 0
    ensures Cmp(b, x, z, k) == 0
  {
    CmpTrans(b, x, y, z, k);
    CmpAnti(b, x, y, k);
    CmpAnti(b, y, z, k);
    CmpTrans(b, z, y, x, k);
    CmpAnti(b, x, z, k);
  }

  /** A set bit in between means the ranks on its two sides differ. */
  lemma OtherBucket(b: seq<byte>, f: seq<int>, k: nat, i: nat, t: nat, j: nat)
    requires IsPermutation(f) && |f| == |b| && SortedBy(b, f, k)
    requires i < t <= j < |f| && Differs(b, f, t, k)
    ensures Cmp(b, f[i], f[j], k) < 0
  {
    var u, v := f[t - 1], f[t];
    if i < t - 1 { assert Cmp(b, f[i], u, k) <= 0; } else { CmpRefl(b, u, k); }
    if t < j { assert Cmp(b, v, f[j], k) <= 0; } else { CmpRefl(b, v, k); }
    assert Cmp(b, u, v, k) <= 0;
    CmpTrans(b, f[i], u, v, k);
    CmpTrans(b, f[i], v, f[j], k);
  }

  /** The bucket heads order the ranks as the first k bytes do. */
  lemma HeadsCompare(b: seq<byte>, f: seq<int>, bh: seq<bool>, k: nat, i: nat, j: nat)
    requires Ranked(b, f, bh, k) && i <= j < |f|
    ensures Head(bh, i) <= Head(bh, j)
    ensures Head(bh, i) == Head(bh, j) <==> Cmp(b, f[i], f[j], k) == 0
  {
    HeadMono(bh, i, j);
    if t :| i < t <= j && bh[t] {
      assert Differs(b, f, t, k);
      OtherBucket(b, f, k, i, t, j);
    } else {
      assert forall t :: i < t <= j ==> !Differs(b, f, t, k);
      SameBucket(b, f, k, i, j);
    }
  }

  /** e[y] orders positions as the h bytes that start h after y do. */
  ghost predicate Classes(b: seq<byte>, e: seq<int>, h: nat)
  {
    |b| <= |e|
    && forall y, z :: 0 <= y < |b| && 0 <= z < |b| ==>
         (e[y] < e[z] <==> Cmp(b, Advance(|b|, y, h), Advance(|b|, z, h), h) < 0)
  }

  /** The position h before x, going round. */
  function Back(n: nat, x: nat, h: nat): (y: nat)
    requires x < n && h <= n
    ensures y < n
  {
    if x - h < 0 then x - h + n else x - h
  }

  lemma BackAdvance(n: nat, x: nat, h: nat)
    requires x < n && h <= n
    ensures Advance(n, Back(n, x, h), h) == x
    ensures Back(n, Advance(n, x, h), h) == x
  {
    AdvanceClosed(n, Back(n, x, h), h);
    AdvanceClosed(n, x, h);
  }

  lemma BackInjective(f: seq<int>, h: nat, i: nat, m: nat)
    requires IsPermutation(f) && h <= |f| && i < |f| && m < |f| && i != m
    ensures Back(|f|, f[i], h) != Back(|f|, f[m], h)
  {
    BackAdvance(|f|, f[i], h);
    BackAdvance(|f|, f[m], h);
    if i < m { assert f[i] != f[m]; } else { assert f[m] != f[i]; }
  }

  lemma BackHits(f: seq<int>, h: nat, y: nat) returns (i: nat)
    requires IsPermutation(f) && h <= |f| && y < |f|
    ensures i < |f| && Back(|f|, f[i], h) == y
  {
    i := PermutationHits(f, Advance(|f|, y, h));
    BackAdvance(|f|, y, h);
  }

  /** The first i ranks have given their bucket's head to the positions h before theirs. */
  ghost predicate Assigned(e: seq<int>, f: seq<int>, q: seq<bool>, h: nat, i: int)
    requires IsPermutation(f) && h <= |f| <= |e| && |f| <= |q|
  {
    i <= |f| && forall m :: 0 <= m < i ==> e[Back(|f|, f[m], h)] == Head(q, m)
  }

  lemma AssignedMore(e: seq<int>, f: seq<int>, q: seq<bool>, h: nat, i: nat)
    requires IsPermutation(f) && 1 <= h <= |f| <= |e| && |f| <= |q| && i < |f| && Assigned(e, f, q, h, i)
    ensures Assigned(e[Back(|f|, f[i], h) := Head(q, i)], f, q, h, i + 1)
  {
    hide Head, Back;
    var k := Back(|f|, f[i], h);
    var e' := e[k := Head(q, i)];
    forall m | 0 <= m < i + 1 ensures e'[Back(|f|, f[m], h)] == Head(q, m) {
      if m < i { BackInjective(f, h, i, m); }
    }
  }

  /** At the end every position has a class. */
  lemma AllAssigned(e: seq<int>, f: seq<int>, q: seq<bool>, h: nat, y: nat)
    requires IsPermutation(f) && 1 <= h <= |f| <= |e| && |f| <= |q| && Assigned(e, f, q, h, |f|) && y < |f|
    ensures 0 <= e[y] < |f|
  {
    hide Back;
    var m := BackHits(f, h, y);
    assert e[Back(|f|, f[m], h)] == Head(q, m);
  }

  method AssignClasses(fmap: array<int>, eclass: array<int>, bh: array<bool>, n: nat, H: nat)
    requires fmap != eclass && 0 < n <= fmap.Length && n <= eclass.Length && n <= bh.Length && 1 <= H <= n
    requires IsPermutation(fmap[..n])
    modifies eclass
    ensures forall i :: 0 <= i < n ==> eclass[Back(n, fmap[i], H)] == Head(bh[..], i)
    ensures forall y :: 0 <= y < n ==> 0 <= eclass[y] < n
    ensures forall y :: n <= y < eclass.Length ==> eclass[y] == old(eclass[y])
  {
    hide Head, Assigned;
    ghost var f, q, e0 := fmap[..n], bh[..], eclass[..];
    var j := 0;
    var i := 0;
    AssignedNone(eclass[..], f, q, H);
    while i < n
      invariant 0 <= i <= n && fmap[..n] == f && bh[..] == q
      invariant j == if i == 0 then 0 else Head(q, i - 1)
      invariant Assigned(eclass[..], f, q, H, i) && eclass[n..] == e0[n..]
    {
      assert bh[i] == q[i] && fmap[i] == f[i];
      if bh[i] { j := i; }
      HeadAt(q, i);
      var k := fmap[i] - H;
      if k < 0 { k := k + n; }
      AssignedMore(eclass[..], f, q, H, i);
      eclass[k] := j;
      i := i + 1;
    }
    forall y | 0 <= y < n ensures 0 <= eclass[y] < n { AllAssigned(eclass[..], f, q, H, y); }
    forall i | 0 <= i < n ensures eclass[Back(n, fmap[i], H)] == Head(bh[..], i) { AssignedAt(eclass[..], f, q, H, i); }
    assert forall y :: n <= y < eclass.Length ==> eclass[y] == eclass[n..][y - n];
  }

  lemma AssignedNone(e: seq<int>, f: seq<int>, q: seq<bool>, h: nat)
    requires IsPermutation(f) && h <= |f| <= |e| && |f| <= |q|
    ensures Assigned(e, f, q, h, 0)
  {
  }

  lemma AssignedAt(e: seq<int>, f: seq<int>, q: seq<bool>, h: nat, i: nat)
    requires IsPermutation(f) && h <= |f| <= |e| && |f| <= |q| && Assigned(e, f, q, h, |f|) && i < |f|
    ensures e[Back(|f|, f[i], h)] == Head(q, i)
  {
  }

  lemma HeadAt(q: seq<bool>, i: nat)
    requires i < |q|
    ensures Head(q, i) == if q[i] then i else if i == 0 then 0 else Head(q, i - 1)
  {
  }

  lemma ClassesAssigned(b: seq<byte>, f: seq<int>, bh: seq<bool>, e: seq<int>, h: nat)
    requires Ranked(b, f, bh, h) && 1 <= h <= |b| <= |e|
    requires forall i :: 0 <= i < |b| ==> e[Back(|b|, f[i], h)] == Head(bh, i)
    ensures Classes(b, e, h)
  {
    var n := |b|;
    forall y, z | 0 <= y < n && 0 <= z < n
      ensures e[y] < e[z] <==> Cmp(b, Advance(n, y, h), Advance(n, z, h), h) < 0
    {
      var i := PermutationHits(f, Advance(n, y, h));
      var j := PermutationHits(f, Advance(n, z, h));
      BackAdvance(n, y, h);
      BackAdvance(n, z, h);
      assert e[Back(n, f[i], h)] == Head(bh, i) && e[Back(n, f[j], h)] == Head(bh, j);
      CmpAnti(b, f[i], f[j], h);
      if i <= j {
        HeadsCompare(b, f, bh, h, i, j);
        if i == j { CmpRefl(b, f[i], h); }
      } else {
        HeadsCompare(b, f, bh, h, j, i);
      }
    }
  }

  /** Among rotations that agree on h bytes, class order is the order by 2h bytes. */
  lemma ClassOrder(b: seq<byte>, e: seq<int>, h: nat, y: nat, z: nat)
    requires Classes(b, e, h) && y < |b| && z < |b| && Cmp(b, y, z, h) == 0
    ensures e[y] < e[z] <==> Cmp(b, y, z, 2 * h) < 0
    ensures e[y] == e[z] <==> Cmp(b, y, z, 2 * h) == 0
  {
    CmpSplit(b, y, z, h, h);
    var y', z' := Advance(|b|, y, h), Advance(|b|, z, h);
    CmpAnti(b, y', z', h);
    assert e[z] < e[y] <==> Cmp(b, z', y', h) < 0;
  }

  // ----- one pass: from depth h to depth 2h

  /** Part way through a pass: ranks below s are settled for 2h bytes, the others still for h. */
  ghost predicate Refined(b: seq<byte>, f: seq<int>, q: seq<bool>, h: nat, s: int)
  {
    && IsPermutation(f) && |f| == |b| && 0 <= s <= |b|
    && Sentinel(q, |b|) && q[0] && q[s]
    && SortedBy(b, f, h)
    && (forall p :: 1 <= p < s ==> (q[p] <==> Differs(b, f, p, 2 * h)))
    && (forall p :: s <= p < |f| && 1 <= p ==> (q[p] <==> Differs(b, f, p, h)))
    && (forall x, y :: 0 <= x < y < s ==> Cmp(b, f[x], f[y], 2 * h) <= 0)
  }

  lemma PassStart(b: seq<byte>, f: seq<int>, q: seq<bool>, h: nat)
    requires Ranked(b, f, q, h)
    ensures Refined(b, f, q, h, 0)
  {
  }

  lemma PassEnd(b: seq<byte>, f: seq<int>, q: seq<bool>, h: nat)
    requires Refined(b, f, q, h, |b|) && |b| > 0
    ensures Ranked(b, f, q, 2 * h)
  {
  }

  lemma DiffersDeeper(b: seq<byte>, f: seq<int>, p: nat, h: nat)
    requires Differs(b, f, p, h)
    ensures Differs(b, f, p, 2 * h)
  {
    CmpPrefix(b, f[p - 1], f[p], h, 2 * h);
  }

  /** Buckets of one rotation need no work. */
  lemma PassSingletons(b: seq<byte>, f: seq<int>, q: seq<bool>, h: nat, s: nat, l: nat)
    requires Refined(b, f, q, h, s) && s <= l <= |b|
    requires forall t :: s <= t <= l ==> q[t]
    ensures Refined(b, f, q, h, l)
  {
    forall p | 1 <= p < l ensures q[p] <==> Differs(b, f, p, 2 * h) {
      if s <= p { DiffersDeeper(b, f, p, h); }
    }
    forall x, y | 0 <= x < y < l ensures Cmp(b, f[x], f[y], 2 * h) <= 0 {
      if s <= y {
        assert q[y];
        OtherBucket(b, f, h, x, y, y);
        CmpPrefix(b, f[x], f[y], h, 2 * h);
      }
    }
  }

  /** g is f with the bucket l..r put in class order, and r its bits: set at l and where the class changes. */
  ghost predicate BucketDone(f: seq<int>, g: seq<int>, q: seq<bool>, q': seq<bool>, e: seq<int>, l: int, r: int)
  {
    && 0 <= l <= r < |f| && |f| <= |e| && |q'| == |q| && |f| < |q|
    && Rearranged(f, g, l, r + 1)
    && (forall i :: 0 <= i < |g| ==> 0 <= g[i] < |e|)
    && (forall i, j :: l <= i < j <= r ==> e[g[i]] <= e[g[j]])
    && (forall p :: 0 <= p <= l || r < p < |q| ==> q'[p] == q[p])
    && (forall p :: l < p <= r ==> (q'[p] <==> e[g[p - 1]] != e[g[p]]))
  }

  /** Any two ranks of the bucket hold, before and after, rotations that agree on h bytes. */
  lemma InBucket(b: seq<byte>, f: seq<int>, g: seq<int>, q: seq<bool>, h: nat, l: nat, r: nat, i: nat) returns (i': nat)
    requires Refined(b, f, q, h, l) && l <= i <= r < |b|
    requires Rearranged(f, g, l, r + 1)
    ensures l <= i' <= r && g[i] == f[i']
  {
    i' := RearrangedSource(f, g, l, r + 1, i);
  }

  lemma BucketEqual(b: seq<byte>, f: seq<int>, q: seq<bool>, h: nat, l: nat, r: nat, i: nat, j: nat)
    requires Refined(b, f, q, h, l) && l <= i <= r < |b| && l <= j <= r
    requires forall t :: l < t <= r ==> !q[t]
    ensures Cmp(b, f[i], f[j], h) == 0
  {
    forall t | l < t <= r ensures !Differs(b, f, t, h) {
      assert !q[t];
    }
    SameBucket(b, f, h, i, j);
  }

  lemma PassSorted(b: seq<byte>, f: seq<int>, g: seq<int>, q: seq<bool>, q': seq<bool>, e: seq<int>, h: nat, l: nat, r: nat,
                   x: nat, y: nat)
    requires Refined(b, f, q, h, l) && BucketDone(f, g, q, q', e, l, r) && Classes(b, e, h)
    requires (forall t :: l < t <= r ==> !q[t]) && q[r + 1]
    requires x < y < |b| && IsPermutation(g)
    ensures Cmp(b, g[x], g[y], h) <= 0
    ensures y <= r ==> Cmp(b, g[x], g[y], 2 * h) <= 0
    ensures l <= x && y <= r ==> Cmp(b, g[x], g[y], h) == 0
    ensures x < l <= y <= r || (l <= x <= r < y) ==> Cmp(b, g[x], g[y], h) < 0
  {
    hide Cmp;
    var x', y' := x, y;
    if l <= x <= r { x' := InBucket(b, f, g, q, h, l, r, x); }
    if l <= y <= r { y' := InBucket(b, f, g, q, h, l, r, y); }
    assert g[x] == f[x'] && g[y] == f[y'];
    if l <= x && y <= r {
      BucketEqual(b, f, q, h, l, r, x', y');
      ClassOrder(b, e, h, g[x], g[y]);
      CmpAnti(b, g[x], g[y], h);
      ClassOrder(b, e, h, g[y], g[x]);
      CmpAnti(b, g[x], g[y], 2 * h);
    } else if x < l <= y <= r {
      OtherBucket(b, f, h, x', l, y');
      CmpPrefix(b, g[x], g[y], h, 2 * h);
    } else if l <= x <= r < y {
      OtherBucket(b, f, h, x', r + 1, y');
    } else {
      assert x' < y';
    }
  }

  lemma PassBits(b: seq<byte>, f: seq<int>, g: seq<int>, q: seq<bool>, q': seq<bool>, e: seq<int>, h: nat, l: nat, r: nat,
                 p: nat)
    requires Refined(b, f, q, h, l) && BucketDone(f, g, q, q', e, l, r) && Classes(b, e, h)
    requires (forall t :: l < t <= r ==> !q[t]) && q[r + 1]
    requires 1 <= p < |b| && IsPermutation(g)
    ensures p <= r ==> (q'[p] <==> Differs(b, g, p, 2 * h))
    ensures r < p ==> (q'[p] <==> Differs(b, g, p, h))
  {
    PassSorted(b, f, g, q, q', e, h, l, r, p - 1, p);
    if p < l {
      assert g[p - 1] == f[p - 1] && g[p] == f[p];
    } else if p == l {
      assert q[l] && q'[l];
      CmpPrefix(b, g[p - 1], g[p], h, 2 * h);
    } else if p <= r {
      ClassOrder(b, e, h, g[p - 1], g[p]);
    } else if p == r + 1 {
      assert q'[r + 1];
    } else {
      assert g[p - 1] == f[p - 1] && g[p] == f[p];
    }
  }

  /** Sorting a bucket by class and marking where the class changes settles it for 2h bytes. */
  lemma PassBucket(b: seq<byte>, f: seq<int>, g: seq<int>, q: seq<bool>, q': seq<bool>, e: seq<int>, h: nat, l: nat, r: nat)
    requires Refined(b, f, q, h, l) && BucketDone(f, g, q, q', e, l, r) && Classes(b, e, h)
    requires (forall t :: l < t <= r ==> !q[t]) && q[r + 1]
    ensures Refined(b, g, q', h, r + 1)
  {
    RearrangedPermutation(f, g, l, r + 1);
    forall x, y | 0 <= x < y < |b|
      ensures Cmp(b, g[x], g[y], h) <= 0 && (y <= r ==> Cmp(b, g[x], g[y], 2 * h) <= 0)
    {
      PassSorted(b, f, g, q, q', e, h, l, r, x, y);
    }
    forall p | 1 <= p < |b|
      ensures p <= r ==> (q'[p] <==> Differs(b, g, p, 2 * h))
      ensures r < p ==> (q'[p] <==> Differs(b, g, p, h))
    {
      PassBits(b, f, g, q, q', e, h, l, r, p);
    }
  }

  lemma RearrangedSlice(f: seq<int>, g: seq<int>, n: nat, lo: nat, hi: nat)
    requires lo <= hi <= n <= |f| && Rearranged(f, g, lo, hi)
    ensures Rearranged(f[..n], g[..n], lo, hi) && f[n..] == g[n..]
  {
    forall x ensures Occ(g[..n], lo, hi, x) == Occ(f[..n], lo, hi, x) {
      OccSame(f, f[..n], lo, hi, x);
      OccSame(g, g[..n], lo, hi, x);
    }
  }

  lemma Pow2Of31()
    ensures Bits.Pow2(31) == 0x8000_0000
  {
    assert Bits.Pow2(8) == 256;
    assert Bits.Pow2(16) == 65536;
    assert Bits.Pow2(24) == 16777216;
  }

  method SetHeaders(fmap: array<int>, eclass: array<int>, bh: array<bool>, l: nat, r: nat)
    requires l <= r < fmap.Length && r < bh.Length
    requires forall i :: l <= i <= r ==> 0 <= fmap[i] < eclass.Length && 0 <= eclass[fmap[i]]
    requires bh[l] && forall t :: l < t <= r ==> !bh[t]
    modifies bh
    ensures forall p :: 0 <= p <= l || r < p < bh.Length ==> bh[p] == old(bh[p])
    ensures forall p :: l < p <= r ==> (bh[p] <==> eclass[fmap[p - 1]] != eclass[fmap[p]])
  {
    var cc := -1;
    var i := l;
    while i <= r
      invariant l <= i <= r + 1
      invariant cc == if i == l then -1 else eclass[fmap[i - 1]]
      invariant forall p :: 0 <= p <= l || i <= p < bh.Length ==> bh[p] == old(bh[p])
      invariant forall p :: l < p < i ==> (bh[p] <==> eclass[fmap[p - 1]] != eclass[fmap[p]])
    {
      var cc1 := eclass[fmap[i]];
      if cc != cc1 {
        bh[i] := true;
        cc := cc1;
      }
      i := i + 1;
    }
  }

  method SortBucket(fmap: array<int>, eclass: array<int>, bh: array<bool>, n: nat, l: nat, r: nat)
    requires fmap != eclass && n <= fmap.Length && n <= eclass.Length && n < bh.Length && n < 0x8000_0000
    requires l <= r < n && IsPermutation(fmap[..n])
    requires forall y :: 0 <= y < n ==> 0 <= eclass[y]
    requires bh[l] && forall t :: l < t <= r ==> !bh[t]
    modifies fmap, bh
    ensures BucketDone(old(fmap[..n]), fmap[..n], old(bh[..]), bh[..], eclass[..], l, r)
    ensures fmap[n..] == old(fmap[n..])
  {
    hide Bits.Pow2, Occ;
    ghost var f, e := fmap[..], eclass[..];
    forall i | 0 <= i < n ensures 0 <= f[i] < n {
      assert f[..n][i] == f[i];
    }
    Pow2Of31();
    Q.QSort3(fmap, eclass, l, r, 31);
    ghost var g := fmap[..];
    RearrangedSlice(f, g, n, l, r + 1);
    RearrangedPermutation(f[..n], g[..n], l, r + 1);
    forall i | 0 <= i < n ensures 0 <= g[i] < n {
      assert g[..n][i] == g[i];
    }
    SetHeaders(fmap, eclass, bh, l, r);
    assert fmap[..] == g;
  }

  /** Find the next bucket l..r of more than one rotation after rank r0: the bits say where it begins and ends. */
  method FindBucket(bh: array<bool>, n: nat, r0: int) returns (done: bool, l: int, r: int)
    requires -1 <= r0 < n && Sentinel(bh[..], n) && bh[r0 + 1]
    ensures done ==> forall t :: r0 < t <= n ==> bh[t]
    ensures !done ==> r0 < l < r < n && bh[r + 1]
    ensures !done ==> forall t :: r0 < t <= l ==> bh[t]
    ensures !done ==> forall t :: l < t <= r ==> !bh[t]
  {
    done, r := false, r0;
    assert bh[n] == bh[..][n] && bh[n + 1] == bh[..][n + 1];
    var k := SkipBits(bh, r0 + 1, true, n + 1);
    l := k - 1;
    if l >= n {
      done := true;
      return;
    }
    k := SkipBits(bh, k, false, n);
    r := k - 1;
  }

  method SettleBucket(fmap: array<int>, eclass: array<int>, bh: array<bool>, n: nat, H: nat, l: nat, r: nat,
                      ghost r0: int, ghost b: seq<byte>)
    requires fmap != eclass && n == |b| <= fmap.Length && n <= eclass.Length && n < 0x8000_0000
    requires -1 <= r0 < l < r < n && Refined(b, fmap[..n], bh[..], H, r0 + 1)
    requires Classes(b, eclass[..], H) && forall y :: 0 <= y < n ==> 0 <= eclass[y]
    requires forall t :: r0 < t <= l ==> bh[t]
    requires bh[r + 1] && forall t :: l < t <= r ==> !bh[t]
    modifies fmap, bh
    ensures Refined(b, fmap[..n], bh[..], H, r + 1)
    ensures fmap[n..] == old(fmap[n..])
  {
    ghost var f, q := fmap[..n], bh[..];
    PassSingletons(b, f, q, H, r0 + 1, l);
    SortBucket(fmap, eclass, bh, n, l, r);
    PassBucket(b, f, fmap[..n], q, bh[..], eclass[..], H, l, r);
  }

  /** One turn of the log loop: every bucket of more than one rotation, in order. */
  method Pass(fmap: array<int>, eclass: array<int>, bh: array<bool>, n: nat, H: nat, ghost b: seq<byte>)
    returns (nNotDone: nat)
    requires fmap != eclass && 0 < n == |b| <= fmap.Length && n <= eclass.Length && n < 0x8000_0000
    requires Ranked(b, fmap[..n], bh[..], H)
    requires Classes(b, eclass[..], H) && forall y :: 0 <= y < n ==> 0 <= eclass[y]
    modifies fmap, bh
    ensures Ranked(b, fmap[..n], bh[..], 2 * H)
    ensures nNotDone == 0 ==> forall p :: 1 <= p < n ==> bh[p]
    ensures fmap[n..] == old(fmap[n..])
  {
    nNotDone := 0;
    var r := -1;
    PassStart(b, fmap[..n], bh[..], H);
    while true
      invariant -1 <= r < n && eclass[..] == old(eclass[..])
      invariant Refined(b, fmap[..n], bh[..], H, r + 1)
      invariant nNotDone == 0 ==> r == -1
      invariant fmap[n..] == old(fmap[n..])
      decreases n - r
    {
      var done, l, r' := FindBucket(bh, n, r);
      if done {
        PassSingletons(b, fmap[..n], bh[..], H, r + 1, n);
        break;
      }
      if r' > l {
        nNotDone := nNotDone + (r' - l + 1);
        SettleBucket(fmap, eclass, bh, n, H, l, r', r, b);
      }
      r := r';
    }
    PassEnd(b, fmap[..n], bh[..], H);
  }

  // ----- the log loop

  /** Ranks that are strictly apart on k bytes, or sorted on at least the whole block, are sorted for good. */
  lemma SortedForGood(b: seq<byte>, f: seq<int>, q: seq<bool>, k: nat)
    requires Ranked(b, f, q, k)
    requires k > |b| || forall p :: 1 <= p < |b| ==> q[p]
    ensures SortedBy(b, f, |b|)
  {
    forall x, y | 0 <= x < y < |f| ensures Cmp(b, f[x], f[y], |b|) <= 0 {
      if k > |b| {
        CmpPrefix(b, f[x], f[y], |b|, k);
      } else {
        assert q[y];
        OtherBucket(b, f, k, x, y, y);
        CmpPrefix(b, f[x], f[y], k, |b|);
      }
    }
  }

  /** The bytes in the order of the sorted rotations. */
  ghost function FirstColumn(b: seq<byte>, f: seq<int>): (r: seq<int>)
    requires forall i :: 0 <= i < |f| ==> 0 <= f[i] < |b|
    ensures |r| == |f| && forall i :: 0 <= i < |f| ==> r[i] == b[f[i]]
  {
    seq(|f|, i requires 0 <= i < |f| => b[f[i]])
  }

  lemma FirstColumnSorted(b: seq<byte>, f: seq<int>)
    requires IsPermutation(f) && |f| == |b| > 0 && SortedBy(b, f, |b|)
    ensures var c := FirstColumn(b, f);
            && (forall x, y :: 0 <= x < y < |b| ==> c[x] <= c[y])
            && forall v :: Occ(c, 0, |b|, v) == Occ(b, 0, |b|, v)
  {
    var c := FirstColumn(b, f);
    forall x, y | 0 <= x < y < |b| ensures c[x] <= c[y] {
      CmpPrefix(b, f[x], f[y], 1, |b|);
    }
    forall v ensures Occ(c, 0, |b|, v) == Occ(b, 0, |b|, v) {
      PermutedOcc(b, f, c, v);
    }
  }

  lemma OccFront(s: seq<int>, i: nat, v: int)
    requires i < |s|
    ensures Occ(s, i, |s|, v) == Occ(s, i + 1, |s|, v) + (if s[i] == v then 1 else 0)
  {
    OccSplit(s, i, i + 1, |s|, v);
    assert Occ(s, i, i + 1, v) == Occ(s, i, i, v) + if s[i] == v then 1 else 0;
  }

  /** Rebuild the block over the classes, reading its bytes off the byte counts in rank order. */
  method Restore(fmap: array<int>, eclass: array<int>, ftabCopy: array<int>, n: nat, ghost b: seq<byte>)
    requires fmap != eclass && eclass != ftabCopy && fmap != ftabCopy && ftabCopy.Length == 257
    requires 0 < n == |b| <= fmap.Length && n <= eclass.Length && AllWords(eclass[..])
    requires forall c :: 0 <= c < 256 ==> ftabCopy[c] == Occ(b, 0, n, c)
    requires IsPermutation(fmap[..n]) && SortedBy(b, fmap[..n], n)
    modifies eclass, ftabCopy
    ensures Holds(eclass[..], b) && AllWords(eclass[..])
  {
    hide AllWords, ByteAt, Occ, SortedBy;
    ghost var f := fmap[..n];
    ghost var col := FirstColumn(b, f);
    FirstColumnSorted(b, f);
    var j := 0;
    var i := 0;
    while i < n
      invariant 0 <= i <= n && fmap[..n] == f && AllWords(eclass[..])
      invariant 0 <= j < 256 && (i < n ==> j <= col[i])
      invariant forall c :: 0 <= c < 256 ==> ftabCopy[c] == Occ(col, i, n, c)
      invariant forall m :: 0 <= m < i ==> ByteAt(eclass[..], f[m]) == col[m]
    {
      j := NextByte(ftabCopy, j, col, i);
      assert fmap[i] == f[i];
      forall c | 0 <= c < 256 ensures Occ(col, i, n, c) == Occ(col, i + 1, n, c) + (if col[i] == c then 1 else 0) {
        OccFront(col, i, c);
      }
      ftabCopy[j] := ftabCopy[j] - 1;
      StoreByte(eclass, fmap[i], j);
      i := i + 1;
    }
    forall x | 0 <= x < n ensures ByteAt(eclass[..], x) == b[x] {
      var m := PermutationHits(f, x);
      assert ByteAt(eclass[..], f[m]) == col[m];
    }
    assert Holds(eclass[..], b);
  }

  /** The first byte from j0 on of which some are left is the byte of the next rank. */
  method NextByte(ftabCopy: array<int>, j0: nat, ghost col: seq<int>, ghost i: nat) returns (j: nat)
    requires ftabCopy.Length == 257 && i < |col| && 0 <= j0 <= col[i] < 256
    requires forall x, y :: 0 <= x < y < |col| ==> col[x] <= col[y]
    requires forall c :: 0 <= c < 256 ==> ftabCopy[c] == Occ(col, i, |col|, c)
    ensures j == col[i]
  {
    j := j0;
    OccPositive(col, i, |col|, i);
    while ftabCopy[j] == 0
      invariant 0 <= j <= col[i]
      decreases col[i] - j
    {
      j := j + 1;
    }
    ghost var w := OccWitness(col, i, |col|, j);
  }

  method StoreByte(eclass: array<int>, i: nat, v: int)
    requires AllWords(eclass[..]) && i < 4 * eclass.Length && 0 <= v < 256
    modifies eclass
    ensures AllWords(eclass[..])
    ensures ByteAt(eclass[..], i) == v
    ensures forall m :: 0 <= m < 4 * eclass.Length && m != i ==> ByteAt(eclass[..], m) == old(ByteAt(eclass[..], m))
  {
    WithByteAt(eclass[..], i, v);
    ghost var w := WithByte(eclass[..], i, v);
    eclass[i / 4] := SetByte(eclass[i / 4], i % 4, v);
    assert eclass[..] == w;
  }

  /** The initial fmap and header bits, and a copy of the byte counts. */
  method Radix(fmap: array<int>, eclass: array<int>, bh: array<bool>, n: nat, ghost b: seq<byte>)
    returns (ftabCopy: array<int>)
    requires fmap != eclass && 0 < n == |b| <= fmap.Length && n <= eclass.Length
    requires Holds(eclass[..], b)
    requires bh.Length % 32 == 0 && n + 96 <= bh.Length
    modifies fmap, bh
    ensures Ranked(b, fmap[..n], bh[..], 1)
    ensures fresh(ftabCopy) && ftabCopy.Length == 257
    ensures forall c :: 0 <= c < 256 ==> ftabCopy[c] == Occ(b, 0, n, c)
    ensures fmap[n..] == old(fmap[n..])
  {
    var ftab := CountBytes(eclass, b, n);
    ftabCopy := new int[257](i requires 0 <= i < 257 reads ftab => ftab[i]);
    Cumulate(ftab, b);
    PlaceBytes(fmap, eclass, ftab, b, n);
    MarkBuckets(bh, ftab, b, n);
    RadixSorted(b, fmap[..n]);
    assert Below(b, 0) == 0;
  }

  /** The body of the log loop. */
  method Deepen(fmap: array<int>, eclass: array<int>, bh: array<bool>, n: nat, H: nat, ghost b: seq<byte>)
    returns (nNotDone: nat)
    requires fmap != eclass && 0 < n == |b| <= fmap.Length && n <= eclass.Length && n < 0x8000_0000
    requires 1 <= H <= n && Ranked(b, fmap[..n], bh[..], H) && AllWords(eclass[..])
    modifies fmap, eclass, bh
    ensures Ranked(b, fmap[..n], bh[..], 2 * H) && AllWords(eclass[..])
    ensures nNotDone == 0 ==> forall p :: 1 <= p < n ==> bh[p]
    ensures fmap[n..] == old(fmap[n..])
  {
    AssignClasses(fmap, eclass, bh, n, H);
    assert AllWords(eclass[..]);
    ClassesAssigned(b, fmap[..n], bh[..], eclass[..], H);
    nNotDone := Pass(fmap, eclass, bh, n, H, b);
  }

  /** fallbackSort: fmap ends up listing all rotations of the block in order, and the block's bytes, which shared
      their storage with the classes, are back in place. */
  method Sort(fmap: array<int>, eclass: array<int>, bh: array<bool>, n: nat, ghost b: seq<byte>)
    requires fmap != eclass && 0 < n == |b| <= fmap.Length && n <= eclass.Length && n < 0x8000_0000
    requires AllWords(eclass[..]) && Holds(eclass[..], b)
    requires bh.Length % 32 == 0 && n + 96 <= bh.Length
    modifies fmap, eclass, bh
    ensures IsPermutation(fmap[..n]) && SortedBy(b, fmap[..n], n)
    ensures Holds(eclass[..], b) && AllWords(eclass[..])
    ensures fmap[n..] == old(fmap[n..])
  {
    var ftabCopy := Radix(fmap, eclass, bh, n, b);
    var H := 1;
    while true
      invariant 1 <= H <= n
      invariant Ranked(b, fmap[..n], bh[..], H)
      invariant AllWords(eclass[..]) && fmap[n..] == old(fmap[n..])
      invariant forall c :: 0 <= c < 256 ==> ftabCopy[c] == Occ(b, 0, n, c)
      decreases n - H
    {
      var nNotDone := Deepen(fmap, eclass, bh, n, H, b);
      H := H * 2;
      if H > n || nNotDone == 0 { break; }
    }
    SortedForGood(b, fmap[..n], bh[..], H);
    Restore(fmap, eclass, ftabCopy, n, b);
  }
}
