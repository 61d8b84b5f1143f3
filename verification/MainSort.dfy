/** mainSort: big buckets one after the other, each finished by sorting what is left of it, then read to fill the buckets
    of the rotations before, then cached in quadrant. */
module MainSort {
  import opened Permutations
  import opened Rotations
  import opened MainOrder
  import opened MainQSort
  import opened MainBuckets
  import opened MainScan
  import opened MainRadix

  /** Every marked small bucket is in order. */
  ghost predicate MarksRight(b: seq<byte>, f: seq<int>, ftab: seq<int>)
  {
    |ftab| == 65537 && forall sb :: 0 <= sb < 65536 && Marked(ftab[sb]) ==> BucketSorted(b, f, sb)
  }

  /** All small buckets of a finished big bucket, and those that a finished one has filled, are marked. */
  ghost predicate DoneMarked(ftab: seq<int>, done: seq<bool>)
  {
    && |ftab| == 65537 && |done| == 256
    && (forall c, d :: 0 <= c < 256 && 0 <= d < 256 && done[c] ==> Marked(ftab[Small(c, d)]))
    && forall c, d :: 0 <= c < 256 && 0 <= d < 256 && done[c] ==> Marked(ftab[Small(d, c)])
  }

  /** What holds between two big buckets, and within one. */
  ghost predicate Progress(b: seq<byte>, f: seq<int>, ftab: seq<int>, done: seq<bool>)
  {
    Bucketed(b, f) && Table(b, ftab) && MarksRight(b, f, ftab) && DoneMarked(ftab, done) && |b| <= 900_000
  }

  /** Small buckets [ss, c], other than [ss, ss], are marked for c below j. */
  ghost predicate RowMarked(ftab: seq<int>, ss: int, j: int)
  {
    |ftab| == 65537 && 0 <= ss < 256 && forall c :: 0 <= c < j <= 256 && c != ss ==> Marked(ftab[Small(ss, c)])
  }

  function Mark(v: int): int { if Marked(v) then v else v + SETMASK }

  lemma MarkOne(b: seq<byte>, f: seq<int>, ftab: seq<int>, done: seq<bool>, sb: nat)
    requires Progress(b, f, ftab, done) && sb < 65536 && BucketSorted(b, f, sb)
    ensures Progress(b, f, ftab[sb := Mark(ftab[sb])], done)
    ensures Marked(Mark(ftab[sb]))
  {
    hide Bucketed, BucketSorted, Start;
    StartMono(b, sb, sb);
    assert TableAt(b, ftab, sb);
    var g := ftab[sb := Mark(ftab[sb])];
    forall t | 0 <= t < |g| ensures TableAt(b, g, t) { assert TableAt(b, ftab, t); }
  }

  /** A bucket of at most one rotation is in order. */
  lemma TinySorted(b: seq<byte>, f: seq<int>, sb: nat)
    requires Bucketed(b, f) && Start(b, sb + 1) <= Start(b, sb) + 1
    ensures BucketSorted(b, f, sb)
  {
    hide Start, Rank, Pairs;
    StartMono(b, sb, sb + 1);
    forall k | 0 <= k < |f| ensures 0 <= f[k] < |b| { assert InPlace(b, f, k); }
  }

  /** Sorting one small bucket leaves the others as they are. */
  lemma SortedOne(b: seq<byte>, p: seq<int>, p': seq<int>, ftab: seq<int>, done: seq<bool>, sb: nat)
    requires |b| <= |p| && Progress(b, p[..|b|], ftab, done) && sb < 65536
    requires Start(b, sb) <= Start(b, sb + 1) <= |b| && Rearranged(p, p', Start(b, sb), Start(b, sb + 1))
    ensures |p'| == |p| && p'[|b|..] == p[|b|..]
    ensures Bucketed(b, p'[..|b|]) && (!Marked(ftab[sb]) ==> Progress(b, p'[..|b|], ftab, done))
  {
    hide Start, Rank, Bucketed, BucketSorted;
    var f, g := p[..|b|], p'[..|b|];
    var lo, hi := Start(b, sb), Start(b, sb + 1);
    FrontRearranged(p, p', |b|, lo, hi);
    ReorderBucket(b, f, g, sb);
    if !Marked(ftab[sb]) {
      forall t | 0 <= t < 65536 && Marked(ftab[t]) ensures BucketSorted(b, g, t) {
        Apart(b, sb, t);
        OtherSorted(b, f, g, t, lo, hi);
      }
    }
  }

  lemma FrontRearranged(p: seq<int>, q: seq<int>, n: nat, lo: nat, hi: nat)
    requires lo <= hi <= n <= |p| && Rearranged(p, q, lo, hi)
    ensures |q| == |p| && Rearranged(p[..n], q[..n], lo, hi) && q[n..] == p[n..]
  {
    forall x ensures Occ(q[..n], lo, hi, x) == Occ(p[..n], lo, hi, x) {
      OccSame(p, p[..n], lo, hi, x);
      OccSame(q, q[..n], lo, hi, x);
    }
  }

  lemma FrontSorted(b: seq<byte>, p: seq<int>, sb: nat)
    requires |b| <= |p| && SortedByOrder(b, p, Start(b, sb), Start(b, sb + 1))
    ensures BucketSorted(b, p[..|b|], sb)
  {
    hide Start, Rank;
    StartMono(b, sb, sb + 1);
  }

  /** Small bucket [ss, j], unless it is in order already: step 1 for one bucket. */
  method FinishSmall(ptr: array<int>, block: array<int>, quadrant: array<int>, ftab: array<int>, nblock: nat, sb: nat,
                     budget0: int, ghost b: seq<byte>, ghost done: seq<bool>) returns (budget: int)
    requires ptr != block && ptr != quadrant && ptr != ftab && ftab != block && ftab != quadrant
    requires nblock == |b| <= ptr.Length && Setting(block[..], quadrant[..], b) && sb < 65536
    requires Progress(b, ptr[..nblock], ftab[..], done) && budget0 >= 0
    modifies ptr, ftab
    ensures ptr[nblock..] == old(ptr[nblock..])
    ensures budget >= 0 ==> Progress(b, ptr[..nblock], ftab[..], done)
    ensures budget >= 0 ==> ftab[..] == old(ftab[..])[sb := Mark(old(ftab[sb]))] && Marked(ftab[sb])
  {
    hide Setting, Progress, Start, BucketSorted, SortedByOrder, Rearranged, Agree, Mark, Marked, Clear, Bucketed, Table;
    budget := budget0;
    ghost var f, tab := ptr[..nblock], ftab[..];
    ProgressParts(b, f, tab, done);
    TableSize(b, tab);
    if !Marked(ftab[sb]) {
      ClearIs(b, tab, sb);
      ClearIs(b, tab, sb + 1);
      StartMono(b, sb, sb + 1);
      var lo, hi := Clear(ftab[sb]), Clear(ftab[sb + 1]) - 1;
      if hi > lo {
        ghost var p := ptr[..];
        assert p[..nblock] == f;
        BucketAgrees(b, f, p, sb);
        budget := QSort3(ptr, block, quadrant, nblock, lo, hi, 2, budget, b);
        SortedOne(b, p, ptr[..], tab, done, sb);
        assert ptr[..][..nblock] == ptr[..nblock] && ptr[..][nblock..] == ptr[nblock..] && p[nblock..] == old(ptr[nblock..]);
        if budget < 0 { return; }
        FrontSorted(b, ptr[..], sb);
      } else {
        TinySorted(b, f, sb);
      }
    } else {
      MarkedSorted(b, f, tab, done, sb);
    }
    MarkOne(b, ptr[..nblock], tab, done, sb);
    ghost var g := tab[sb := Mark(tab[sb])];
    ftab[sb] := Mark(ftab[sb]);
    assert ftab[..] == g;
  }

  lemma ProgressParts(b: seq<byte>, f: seq<int>, ftab: seq<int>, done: seq<bool>)
    requires Progress(b, f, ftab, done)
    ensures Bucketed(b, f) && Table(b, ftab) && |b| <= 900_000 && |ftab| == 65537 && |done| == 256
  {
  }

  lemma MarkedSorted(b: seq<byte>, f: seq<int>, ftab: seq<int>, done: seq<bool>, sb: nat)
    requires Progress(b, f, ftab, done) && sb < 65536 && Marked(ftab[sb])
    ensures BucketSorted(b, f, sb)
  {
    hide BucketSorted;
  }

  lemma RowStep(ftab: seq<int>, g: seq<int>, ss: int, j: int)
    requires RowMarked(ftab, ss, j) && 0 <= j < 256 && |g| == |ftab| && (j != ss ==> Marked(g[Small(ss, j)]))
    requires forall t :: 0 <= t < |g| && (j == ss || t != Small(ss, j)) ==> g[t] == ftab[t]
    ensures RowMarked(g, ss, j + 1)
  {
    hide Marked;
  }

  /** Step 1: every small bucket [ss, j] with j other than ss is in order. */
  method FinishRow(ptr: array<int>, block: array<int>, quadrant: array<int>, ftab: array<int>, nblock: nat, ss: int,
                   budget0: int, ghost b: seq<byte>, ghost done: seq<bool>) returns (budget: int)
    requires ptr != block && ptr != quadrant && ptr != ftab && ftab != block && ftab != quadrant
    requires nblock == |b| <= ptr.Length && Setting(block[..], quadrant[..], b) && 0 <= ss < 256
    requires Progress(b, ptr[..nblock], ftab[..], done) && budget0 >= 0
    modifies ptr, ftab
    ensures ptr[nblock..] == old(ptr[nblock..])
    ensures budget >= 0 ==> Progress(b, ptr[..nblock], ftab[..], done) && RowMarked(ftab[..], ss, 256)
  {
    hide Setting, Progress, Mark, Marked, RowMarked;
    budget := budget0;
    ProgressParts(b, ptr[..nblock], ftab[..], done);
    NoRow(ftab[..], ss);
    var j := 0;
    while j <= 255
      invariant 0 <= j <= 256 && budget >= 0 && Setting(block[..], quadrant[..], b) && ptr[nblock..] == old(ptr[nblock..])
      invariant Progress(b, ptr[..nblock], ftab[..], done) && RowMarked(ftab[..], ss, j)
    {
      ghost var tab := ftab[..];
      ProgressParts(b, ptr[..nblock], tab, done);
      if j != ss {
        budget := FinishSmall(ptr, block, quadrant, ftab, nblock, Small(ss, j), budget, b, done);
        if budget < 0 { return; }
      }
      RowStep(tab, ftab[..], ss, j);
      j := j + 1;
    }
  }

  lemma NoRow(ftab: seq<int>, ss: int)
    requires |ftab| == 65537 && 0 <= ss < 256
    ensures RowMarked(ftab, ss, 0)
  {
  }

  /** After step 2: what was marked is still in order. */
  lemma SynthesisedProgress(b: seq<byte>, f: seq<int>, g: seq<int>, ftab: seq<int>, done: seq<bool>, ss: int)
    requires Progress(b, f, ftab, done) && Synthesised(b, f, g, done, ss)
    ensures Progress(b, g, ftab, done) && forall c :: 0 <= c < 256 ==> BucketSorted(b, g, Small(c, ss))
  {
    hide Start, Bucketed, BucketSorted, Table, Marked, InRefilled;
    forall sb | 0 <= sb < 65536 && Marked(ftab[sb]) ensures BucketSorted(b, g, sb) {
      StillSorted(b, f, g, done, ss, sb);
    }
    forall c | 0 <= c < 256 ensures BucketSorted(b, g, Small(c, ss)) {
      if done[c] { assert Marked(ftab[Small(c, ss)]); }
    }
  }

  lemma StillSorted(b: seq<byte>, f: seq<int>, g: seq<int>, done: seq<bool>, ss: int, sb: nat)
    requires Synthesised(b, f, g, done, ss) && BucketSorted(b, f, sb)
    ensures BucketSorted(b, g, sb)
  {
    hide Start, Bucketed, Rank;
    if c :| 0 <= c < 256 && !done[c] && sb == Small(c, ss) {
    } else {
      StartMono(b, sb, sb + 1);
      forall k | Start(b, sb) <= k < Start(b, sb + 1) ensures g[k] == f[k] {
        forall c ensures !Refilled(b, done, ss, c, k) {
          if 0 <= c < 256 && sb != Small(c, ss) { Apart(b, sb, Small(c, ss)); }
        }
        assert !InRefilled(b, done, ss, k);
      }
    }
  }

  /** ftab's marks on the buckets [j, ss]. */
  method MarkColumn(ftab: array<int>, ss: int, ghost b: seq<byte>, ghost f: seq<int>, ghost done: seq<bool>)
    requires Progress(b, f, ftab[..], done) && 0 <= ss < 256 && RowMarked(ftab[..], ss, 256)
    requires forall c :: 0 <= c < 256 ==> BucketSorted(b, f, Small(c, ss))
    modifies ftab
    ensures Progress(b, f, ftab[..], done[ss := true])
  {
    hide Progress, Mark, Marked, BucketSorted, RowMarked;
    ProgressParts(b, f, ftab[..], done);
    NoColumn(ftab[..], ss);
    var j := 0;
    while j <= 255
      invariant 0 <= j <= 256 && Progress(b, f, ftab[..], done) && RowMarked(ftab[..], ss, 256)
      invariant ftab.Length == 65537 && ColumnMarked(ftab[..], ss, j)
    {
      ghost var tab := ftab[..];
      MarkOne(b, f, tab, done, Small(j, ss));
      ghost var g := tab[Small(j, ss) := Mark(tab[Small(j, ss)])];
      ftab[j * 256 + ss] := Mark(ftab[j * 256 + ss]);
      assert ftab[..] == g;
      MarkKeeps(tab, ss, j);
      j := j + 1;
    }
    NowDone(b, f, ftab[..], done, ss);
  }

  ghost predicate ColumnMarked(ftab: seq<int>, ss: int, j: int)
  {
    |ftab| == 65537 && 0 <= ss < 256 && forall c :: 0 <= c < j <= 256 ==> Marked(ftab[Small(c, ss)])
  }

  lemma NoColumn(ftab: seq<int>, ss: int)
    requires |ftab| == 65537 && 0 <= ss < 256
    ensures ColumnMarked(ftab, ss, 0)
  {
  }

  lemma MarkKeeps(ftab: seq<int>, ss: int, j: int)
    requires RowMarked(ftab, ss, 256) && ColumnMarked(ftab, ss, j) && 0 <= j < 256 && Marked(Mark(ftab[Small(j, ss)]))
    ensures var g := ftab[Small(j, ss) := Mark(ftab[Small(j, ss)])]; RowMarked(g, ss, 256) && ColumnMarked(g, ss, j + 1)
  {
  }

  lemma NowDone(b: seq<byte>, f: seq<int>, ftab: seq<int>, done: seq<bool>, ss: int)
    requires Progress(b, f, ftab, done) && RowMarked(ftab, ss, 256) && ColumnMarked(ftab, ss, 256)
    ensures |done| == 256 && 0 <= ss < 256 && Progress(b, f, ftab, done[ss := true])
  {
    hide Bucketed, Table, BucketSorted, Marked;
  }

  // ----- step 3: the quadrant descriptors

  /** v >> s. */
  function Shr(v: nat, s: nat): nat
  {
    if s == 0 then v else Shr(v, s - 1) / 2
  }

  lemma {:induction false} ShrMono(v: nat, w: nat, s: nat)
    requires v <= w
    ensures Shr(v, s) <= Shr(w, s)
  {
    if s > 0 { ShrMono(v, w, s - 1); }
  }

  /** From entry j on, the rotations of big bucket ss have their descriptors; the overshoot mirrors the beginning. */
  ghost predicate Described(b: seq<byte>, f: seq<int>, q0: seq<int>, q: seq<int>, ss: int, j: int, shifts: nat)
  {
    && 0 <= ss < 256 && |q| == |q0| == |b| + N_OVERSHOOT && |b| > N_OVERSHOOT && |f| == |b| && IsPermutation(f)
    && (forall p :: |b| <= p < |q| ==> q[p] == q[p - |b|])
    && (forall x :: 0 <= x < |b| && b[x] != ss ==> q[x] == q0[x])
    && forall m :: 0 <= j <= m < Start(b, (ss + 1) * 256) - Start(b, ss * 256) ==> DescribedAt(b, f, q, ss, m, shifts)
  }

  ghost predicate DescribedAt(b: seq<byte>, f: seq<int>, q: seq<int>, ss: int, m: int, shifts: nat)
  {
    && 0 <= ss < 256 && 0 <= m && Start(b, ss * 256) + m < |f| && 0 <= f[Start(b, ss * 256) + m] < |q|
    && q[f[Start(b, ss * 256) + m]] == Shr(m, shifts)
  }

  lemma DescribeStep(b: seq<byte>, f: seq<int>, q0: seq<int>, q: seq<int>, ss: int, j: nat, shifts: nat)
    requires Described(b, f, q0, q, ss, j + 1, shifts) && Bucketed(b, f)
    requires j < Start(b, (ss + 1) * 256) - Start(b, ss * 256)
    ensures Start(b, ss * 256) + j < |f| && 0 <= f[Start(b, ss * 256) + j] < |b|
    ensures var a := f[Start(b, ss * 256) + j]; var v := Shr(j, shifts);
            && (a < N_OVERSHOOT ==> Described(b, f, q0, q[a := v][a + |b| := v], ss, j, shifts))
            && (a >= N_OVERSHOOT ==> Described(b, f, q0, q[a := v], ss, j, shifts))
  {
    hide Start, Bucketed;
    StartMono(b, (ss + 1) * 256, (ss + 1) * 256);
    var k := Start(b, ss * 256) + j;
    BigEntry(b, f, ss, k);
    var a, v := f[k], Shr(j, shifts);
    var q' := if a < N_OVERSHOOT then q[a := v][a + |b| := v] else q[a := v];
    forall m | j <= m < Start(b, (ss + 1) * 256) - Start(b, ss * 256) ensures DescribedAt(b, f, q', ss, m, shifts) {
      if m > j {
        assert DescribedAt(b, f, q, ss, m, shifts);
        assert f[Start(b, ss * 256) + m] != a;
      }
      assert 0 <= f[Start(b, ss * 256) + m] < |b|;
    }
  }

  /** An entry of big bucket ss begins with ss. */
  lemma BigEntry(b: seq<byte>, f: seq<int>, ss: int, k: int)
    requires Bucketed(b, f) && 0 <= ss < 256 && Start(b, ss * 256) <= k < Start(b, (ss + 1) * 256)
    ensures 0 <= k < |f| && 0 <= f[k] < |b| && b[f[k]] == ss
  {
    hide Start;
    StartMono(b, (ss + 1) * 256, (ss + 1) * 256);
    assert InPlace(b, f, k);
    var p := Pairs(b)[f[k]];
    if p < ss * 256 { StartMono(b, p + 1, ss * 256); }
    if p >= (ss + 1) * 256 { StartMono(b, (ss + 1) * 256, p); }
  }

  /** And every rotation that begins with ss is one. */
  lemma BigMember(b: seq<byte>, f: seq<int>, ss: int, x: nat) returns (m: nat)
    requires Bucketed(b, f) && x < |b| && b[x] == ss
    ensures 0 <= ss < 256 && m < Start(b, (ss + 1) * 256) - Start(b, ss * 256) && Start(b, ss * 256) + m < |f|
    ensures f[Start(b, ss * 256) + m] == x
  {
    hide Start;
    BucketedPermutation(b, f);
    var k := PermutationHits(f, x);
    assert InPlace(b, f, k);
    var p := Pairs(b)[x];
    assert p == ss * 256 + b[Next(|b|, x)];
    StartMono(b, ss * 256, p);
    StartMono(b, p + 1, (ss + 1) * 256);
    m := k - Start(b, ss * 256);
  }

  /** With the whole big bucket described, the cached order is still right. */
  lemma DescribedCached(b: seq<byte>, f: seq<int>, q0: seq<int>, q: seq<int>, ss: int, shifts: nat)
    requires Described(b, f, q0, q, ss, 0, shifts) && Bucketed(b, f) && Cached(b, q0)
    requires forall j :: 0 <= j < 256 ==> BucketSorted(b, f, Small(ss, j))
    ensures Cached(b, q)
  {
    hide Start, Bucketed, Rank, BucketSorted, CachedPair, DescribedAt, IsPermutation;
    forall x, y | 0 <= x < |b| && 0 <= y < |b| ensures CachedPair(b, q, x, y) {
      assert CachedPair(b, q0, x, y);
      PairDescribed(b, f, q0, q, ss, shifts, x, y);
    }
  }

  lemma PairDescribed(b: seq<byte>, f: seq<int>, q0: seq<int>, q: seq<int>, ss: int, shifts: nat, x: nat, y: nat)
    requires Described(b, f, q0, q, ss, 0, shifts) && Bucketed(b, f) && x < |b| && y < |b| && CachedPair(b, q0, x, y)
    requires forall j :: 0 <= j < 256 ==> BucketSorted(b, f, Small(ss, j))
    ensures CachedPair(b, q, x, y)
  {
    hide Start, Bucketed, Rank, BucketSorted, IsPermutation;
    if b[x] == b[y] == ss && q[x] < q[y] {
      var m := BigMember(b, f, ss, x);
      var k := BigMember(b, f, ss, y);
      assert DescribedAt(b, f, q, ss, m, shifts) && DescribedAt(b, f, q, ss, k, shifts);
      if k <= m { ShrMono(k, m, shifts); }
      BigOrder(b, f, ss, Start(b, ss * 256) + m, Start(b, ss * 256) + k);
    }
  }

  lemma BigOrder(b: seq<byte>, f: seq<int>, ss: int, k: int, m: int)
    requires Bucketed(b, f) && 0 <= ss < 256 && Start(b, ss * 256) <= k < m < Start(b, (ss + 1) * 256)
    requires forall j :: 0 <= j < 256 ==> BucketSorted(b, f, Small(ss, j))
    ensures 0 <= k < m < |f| && 0 <= f[k] < |b| && 0 <= f[m] < |b| && Rank(b)[f[k]] <= Rank(b)[f[m]]
  {
    hide Start, Rank, BucketSorted, InPlace;
    BigEntry(b, f, ss, k);
    BigEntry(b, f, ss, m);
    assert Pairs(b)[f[k]] == Small(ss, b[Next(|b|, f[k])]);
    AcrossBuckets(b, f, k, m);
  }

  // ----- what a smaller descriptor means

  /** A rotation of big bucket ss with a smaller descriptor comes strictly first. */
  ghost predicate StrictlyCached(b: seq<byte>, q: seq<int>, ss: int)
  {
    forall x, y :: 0 <= x < |b| && 0 <= y < |b| ==> StrictPair(b, q, ss, x, y)
  }

  ghost predicate StrictPair(b: seq<byte>, q: seq<int>, ss: int, x: int, y: int)
  {
    0 <= x < |b| <= |q| && 0 <= y < |b| && (b[x] == b[y] == ss && q[x] < q[y] ==> Cmp(b, x, y, |b|) < 0)
  }

  /** Entries of big bucket ss that are equal rotations share a descriptor. */
  ghost predicate EqualTogether(b: seq<byte>, f: seq<int>, ss: int, shifts: nat)
    requires 0 <= ss < 256
  {
    forall m, k :: 0 <= m < k < BigSize(b, ss) ==> TogetherAt(b, f, ss, m, k, shifts)
  }

  ghost predicate TogetherAt(b: seq<byte>, f: seq<int>, ss: int, m: int, k: int, shifts: nat)
    requires 0 <= ss < 256
  {
    var s := Start(b, ss * 256);
    && 0 <= m && 0 <= k && s + m < |f| && s + k < |f| && 0 <= f[s + m] < |b| && 0 <= f[s + k] < |b|
    && (Cmp(b, f[s + m], f[s + k], |b|) == 0 ==> Shr(m, shifts) == Shr(k, shifts))
  }

  ghost function BigSize(b: seq<byte>, ss: int): int
    requires 0 <= ss < 256
  {
    Start(b, (ss + 1) * 256) - Start(b, ss * 256)
  }

  /** By how many bits a big bucket's places are shifted down to fit. */
  function Shifts(size: int, s: nat): nat
    requires size >= 0
    decreases Shr(size, s)
  {
    if Shr(size, s) > 65534 then Shifts(size, s + 1) else s
  }

  /** The strict reading of the descriptors is right exactly when no equal rotations are told apart by them. */
  lemma StrictExactly(b: seq<byte>, f: seq<int>, q0: seq<int>, q: seq<int>, ss: int, shifts: nat)
    requires Described(b, f, q0, q, ss, 0, shifts) && Bucketed(b, f)
    requires forall j :: 0 <= j < 256 ==> BucketSorted(b, f, Small(ss, j))
    ensures StrictlyCached(b, q, ss) <==> EqualTogether(b, f, ss, shifts)
  {
    hide Start, Bucketed, Rank, BucketSorted, IsPermutation, Cmp, Shr, DescribedAt;
    if StrictlyCached(b, q, ss) {
      forall m, k | 0 <= m < k < BigSize(b, ss) ensures TogetherAt(b, f, ss, m, k, shifts) {
        TogetherHere(b, f, q0, q, ss, shifts, m, k);
      }
    }
    if EqualTogether(b, f, ss, shifts) {
      forall x, y | 0 <= x < |b| && 0 <= y < |b| ensures StrictPair(b, q, ss, x, y) {
        if b[x] == b[y] == ss && q[x] < q[y] { StrictHere(b, f, q0, q, ss, shifts, x, y); }
      }
    }
  }

  lemma TogetherHere(b: seq<byte>, f: seq<int>, q0: seq<int>, q: seq<int>, ss: int, shifts: nat, m: nat, k: nat)
    requires Described(b, f, q0, q, ss, 0, shifts) && Bucketed(b, f) && StrictlyCached(b, q, ss) && m < k < BigSize(b, ss)
    ensures TogetherAt(b, f, ss, m, k, shifts)
  {
    hide Start, Bucketed, Cmp, Shr, IsPermutation;
    var s := Start(b, ss * 256);
    BigEntry(b, f, ss, s + m);
    BigEntry(b, f, ss, s + k);
    assert DescribedAt(b, f, q, ss, m, shifts) && DescribedAt(b, f, q, ss, k, shifts);
    assert StrictPair(b, q, ss, f[s + m], f[s + k]);
    ShrMono(m, k, shifts);
  }

  lemma StrictHere(b: seq<byte>, f: seq<int>, q0: seq<int>, q: seq<int>, ss: int, shifts: nat, x: nat, y: nat)
    requires Described(b, f, q0, q, ss, 0, shifts) && Bucketed(b, f) && EqualTogether(b, f, ss, shifts)
    requires forall j :: 0 <= j < 256 ==> BucketSorted(b, f, Small(ss, j))
    requires x < |b| && y < |b| && b[x] == b[y] == ss && q[x] < q[y]
    ensures Cmp(b, x, y, |b|) < 0
  {
    hide Start, Bucketed, Rank, BucketSorted, IsPermutation, Cmp, Shr;
    var m := BigMember(b, f, ss, x);
    var k := BigMember(b, f, ss, y);
    assert DescribedAt(b, f, q, ss, m, shifts) && DescribedAt(b, f, q, ss, k, shifts);
    if k <= m { ShrMono(k, m, shifts); }
    BigOrder(b, f, ss, Start(b, ss * 256) + m, Start(b, ss * 256) + k);
    RankOrder(b, x, y);
    assert TogetherAt(b, f, ss, m, k, shifts);
  }

  /** With no more than 65534 rotations in the bucket, that is when no two of them are equal. */
  lemma UnshiftedExactly(b: seq<byte>, f: seq<int>, ss: int)
    requires Bucketed(b, f) && 0 <= ss < 256
    ensures EqualTogether(b, f, ss, 0) <==>
            forall x, y :: 0 <= x < |b| && 0 <= y < |b| && x != y && b[x] == b[y] == ss ==> Cmp(b, x, y, |b|) != 0
  {
    hide Start, Bucketed, IsPermutation, Cmp, TogetherAt;
    if EqualTogether(b, f, ss, 0) {
      forall x, y | 0 <= x < |b| && 0 <= y < |b| && x != y && b[x] == b[y] == ss ensures Cmp(b, x, y, |b|) != 0 {
        ApartHere(b, f, ss, x, y);
      }
    }
    if forall x, y :: 0 <= x < |b| && 0 <= y < |b| && x != y && b[x] == b[y] == ss ==> Cmp(b, x, y, |b|) != 0 {
      forall m, k | 0 <= m < k < BigSize(b, ss) ensures TogetherAt(b, f, ss, m, k, 0) {
        EntriesApart(b, f, ss, m, k);
      }
    }
  }

  lemma ApartHere(b: seq<byte>, f: seq<int>, ss: int, x: nat, y: nat)
    requires Bucketed(b, f) && 0 <= ss < 256 && EqualTogether(b, f, ss, 0)
    requires x < |b| && y < |b| && x != y && b[x] == b[y] == ss
    ensures Cmp(b, x, y, |b|) != 0
  {
    hide Start, Bucketed, IsPermutation, Cmp;
    var m := BigMember(b, f, ss, x);
    var k := BigMember(b, f, ss, y);
    CmpAnti(b, x, y, |b|);
    if m < k { assert TogetherAt(b, f, ss, m, k, 0); } else { assert TogetherAt(b, f, ss, k, m, 0); }
  }

  lemma EntriesApart(b: seq<byte>, f: seq<int>, ss: int, m: nat, k: nat)
    requires Bucketed(b, f) && 0 <= ss < 256 && m < k < BigSize(b, ss)
    requires forall x, y :: 0 <= x < |b| && 0 <= y < |b| && x != y && b[x] == b[y] == ss ==> Cmp(b, x, y, |b|) != 0
    ensures TogetherAt(b, f, ss, m, k, 0)
  {
    hide Start, Bucketed, IsPermutation, Cmp;
    var s := Start(b, ss * 256);
    BigEntry(b, f, ss, s + m);
    BigEntry(b, f, ss, s + k);
    BucketedPermutation(b, f);
    PermutationApart(f, s + m, s + k);
  }

  lemma PermutationApart(f: seq<int>, i: nat, j: nat)
    requires IsPermutation(f) && i < j < |f|
    ensures f[i] != f[j]
  {
  }

  /** Two equal halves, each a 0 and 9999 ones. */
  function TwoHalves(): (b: seq<byte>)
    ensures |b| == 20000
  {
    seq(20000, i => if i % 10000 == 0 then 0 else 1)
  }

  lemma {:induction false} EqualRotations(k: nat, i: nat, j: nat)
    requires i < 20000 && j < 20000 && i % 10000 == j % 10000
    ensures Cmp(TwoHalves(), i, j, k) == 0
    decreases k
  {
    if k > 0 { EqualRotations(k - 1, Next(20000, i), Next(20000, j)); }
  }

  /** On such a block the two entries of big bucket 0 are equal rotations with different descriptors. */
  lemma NotStrict(f: seq<int>, q0: seq<int>, q: seq<int>)
    requires var b := TwoHalves();
             && Described(b, f, q0, q, 0, 0, 0) && Bucketed(b, f) && forall j :: 0 <= j < 256 ==> BucketSorted(b, f, Small(0, j))
    ensures !StrictlyCached(TwoHalves(), q, 0)
  {
    hide Described, Bucketed, BucketSorted, Cmp, StrictlyCached, EqualTogether, IsPermutation, Start;
    var b := TwoHalves();
    StrictExactly(b, f, q0, q, 0, 0);
    UnshiftedExactly(b, f, 0);
    EqualRotations(20000, 0, 10000);
    assert b[0] == b[10000] == 0;
  }

  /** Step 3: the descriptors of big bucket ss, scaled to fit 16 bits. A smaller one means a rotation that is not greater; that
      it means a smaller rotation holds exactly when no equal rotations of the bucket are told apart. */
  method Describe(ptr: array<int>, quadrant: array<int>, ftab: array<int>, nblock: nat, ss: int, ghost b: seq<byte>,
                  ghost done: seq<bool>)
    requires ptr != quadrant && ptr != ftab && quadrant != ftab && nblock == |b| <= ptr.Length && 0 <= ss < 256
    requires Progress(b, ptr[..nblock], ftab[..], done) && Cached(b, quadrant[..])
    requires forall j :: 0 <= j < 256 ==> BucketSorted(b, ptr[..nblock], Small(ss, j))
    modifies quadrant
    ensures Cached(b, quadrant[..])
    ensures BigSize(b, ss) >= 0
    ensures StrictlyCached(b, quadrant[..], ss) <==> EqualTogether(b, ptr[..nblock], ss, Shifts(BigSize(b, ss), 0))
  {
    hide Progress, Start, BucketSorted, Described, Cached, Clear, Bucketed, Table, StrictlyCached, EqualTogether;
    ghost var f, q0 := ptr[..nblock], quadrant[..];
    ProgressParts(b, f, ftab[..], done);
    BucketedPermutation(b, f);
    ClearIs(b, ftab[..], ss * 256);
    ClearIs(b, ftab[..], (ss + 1) * 256);
    StartMono(b, ss * 256, (ss + 1) * 256);
    var bbStart := Clear(ftab[ss * 256]);
    var bbSize := Clear(ftab[(ss + 1) * 256]) - bbStart;
    var shifts := 0;
    while Shr(bbSize, shifts) > 65534
      invariant 0 <= shifts && Shifts(bbSize, shifts) == Shifts(bbSize, 0)
      decreases Shr(bbSize, shifts)
    {
      shifts := shifts + 1;
    }
    DescribeStart(b, f, q0, ss, bbSize, shifts);
    var j := bbSize - 1;
    while j >= 0
      invariant -1 <= j < bbSize && Described(b, f, q0, quadrant[..], ss, j + 1, shifts) && ptr[..nblock] == f
      invariant quadrant.Length == nblock + N_OVERSHOOT
    {
      ghost var q := quadrant[..];
      DescribeStep(b, f, q0, q, ss, j, shifts);
      ShrMono(j, bbSize, shifts);
      assert ptr[bbStart + j] == f[bbStart + j];
      var a2update := ptr[bbStart + j];
      var qVal := Shr(j, shifts) % 65536;
      quadrant[a2update] := qVal;
      assert quadrant[..] == q[a2update := qVal];
      if a2update < N_OVERSHOOT {
        quadrant[a2update + nblock] := qVal;
        assert quadrant[..] == q[a2update := qVal][a2update + nblock := qVal];
      }
      j := j - 1;
    }
    if bbSize > 0 { ShrMono(bbSize - 1, bbSize, shifts); }
    // assertion 1002
    assert bbSize > 0 ==> Shr(bbSize - 1, shifts) <= 65535;
    DescribedCached(b, f, q0, quadrant[..], ss, shifts);
    StrictExactly(b, f, q0, quadrant[..], ss, shifts);
  }

  lemma DescribeStart(b: seq<byte>, f: seq<int>, q: seq<int>, ss: int, size: int, shifts: nat)
    requires Cached(b, q) && IsPermutation(f) && |f| == |b| && 0 <= ss < 256
    requires size == Start(b, (ss + 1) * 256) - Start(b, ss * 256)
    ensures Described(b, f, q, q, ss, size, shifts) && |q| == |b| + N_OVERSHOOT
  {
    hide Start, Rank;
  }

  // ----- the whole

  lemma BeginProgress(b: seq<byte>, f: seq<int>, ftab: seq<int>, done: seq<bool>)
    requires Bucketed(b, f) && Table(b, ftab) && |b| <= 900_000 && |done| == 256 && forall c :: 0 <= c < 256 ==> !done[c]
    requires forall sb :: 0 <= sb < 65537 ==> !Marked(ftab[sb])
    ensures Progress(b, f, ftab, done)
  {
    hide Bucketed, BucketSorted, Start, Marked;
  }

  lemma RowSorted(b: seq<byte>, f: seq<int>, ftab: seq<int>, done: seq<bool>, ss: int)
    requires Progress(b, f, ftab, done) && RowMarked(ftab, ss, 256)
    ensures forall j :: 0 <= j < 256 && j != ss ==> BucketSorted(b, f, Small(ss, j))
  {
    hide Bucketed, BucketSorted, Table, Marked;
    forall j | 0 <= j < 256 && j != ss ensures BucketSorted(b, f, Small(ss, j)) {
      assert Marked(ftab[Small(ss, j)]);
    }
  }

  lemma DoneSorted(b: seq<byte>, f: seq<int>, ftab: seq<int>, done: seq<bool>, ss: int)
    requires Progress(b, f, ftab, done) && 0 <= ss < 256 && done[ss]
    ensures forall j :: 0 <= j < 256 ==> BucketSorted(b, f, Small(ss, j))
  {
    hide Bucketed, BucketSorted, Table, Marked;
    forall j | 0 <= j < 256 ensures BucketSorted(b, f, Small(ss, j)) {
      assert Marked(ftab[Small(ss, j)]);
    }
  }

  /** One big bucket: steps 1, 2 and 3. */
  method BigBucket(ptr: array<int>, block: array<int>, quadrant: array<int>, ftab: array<int>, nblock: nat, ss: int,
                   last: bool, budget0: int, bigDone: seq<bool>, ghost b: seq<byte>) returns (budget: int)
    requires ptr != block && ptr != quadrant && ptr != ftab && ftab != block && ftab != quadrant && block != quadrant
    requires nblock == |b| <= ptr.Length && nblock <= 900_000 && Setting(block[..], quadrant[..], b) && 0 <= ss < 256
    requires |bigDone| == 256 && !bigDone[ss] && Progress(b, ptr[..nblock], ftab[..], bigDone) && budget0 >= 0
    modifies ptr, quadrant, ftab
    ensures ptr[nblock..] == old(ptr[nblock..])
    ensures budget >= 0 ==> Progress(b, ptr[..nblock], ftab[..], bigDone[ss := true]) && Setting(block[..], quadrant[..], b)
  {
    hide Progress, Setting, RowMarked, BucketSorted, Synthesised, Table, Bucketed;
    budget := FinishRow(ptr, block, quadrant, ftab, nblock, ss, budget0, b, bigDone);
    if budget < 0 { return; }
    ghost var f := ptr[..nblock];
    ProgressParts(b, f, ftab[..], bigDone);
    RowSorted(b, f, ftab[..], bigDone, ss);
    SettingHalves(block[..], quadrant[..], b);
    Synthesise(ptr, block, ftab, bigDone, ss, nblock, b);
    SynthesisedProgress(b, f, ptr[..nblock], ftab[..], bigDone, ss);
    MarkColumn(ftab, ss, b, ptr[..nblock], bigDone);
    if !last {
      DoneSorted(b, ptr[..nblock], ftab[..], bigDone[ss := true], ss);
      Describe(ptr, quadrant, ftab, nblock, ss, b, bigDone[ss := true]);
    }
    SettingHalves(block[..], quadrant[..], b);
  }

  lemma SettingHalves(block: seq<int>, quadrant: seq<int>, b: seq<byte>)
    ensures Setting(block, quadrant, b) <==> Overshot(block, b) && Cached(b, quadrant)
  {
    hide Overshot, Cached;
  }

  lemma AllDone(b: seq<byte>, f: seq<int>, ftab: seq<int>, done: seq<bool>)
    requires Progress(b, f, ftab, done) && |done| == 256 && forall c :: 0 <= c < 256 ==> done[c]
    ensures IsPermutation(f) && SortedBy(b, f, |b|)
  {
    hide Bucketed, BucketSorted, Table, Marked, IsPermutation, SortedBy;
    forall sb: nat | sb < 65536 ensures BucketSorted(b, f, sb) {
      TwoBytes(sb);
      assert Marked(ftab[Small(sb / 256, sb % 256)]);
    }
    AllSorted(b, f);
  }

  lemma TwoBytes(sb: nat)
    requires sb < 65536
    ensures 0 <= sb / 256 < 256 && 0 <= sb % 256 < 256 && Small(sb / 256, sb % 256) == sb
  {
  }

  /** Which big buckets are done: the first i of the running order. */
  ghost predicate FirstDone(order: seq<int>, done: seq<bool>, i: int)
  {
    |order| == |done| == 256 && 0 <= i <= 256 && forall k :: 0 <= k < 256 ==> DoneAt(order, done, i, k)
  }

  ghost predicate DoneAt(order: seq<int>, done: seq<bool>, i: int, k: int)
  {
    0 <= k < |order| && 0 <= order[k] < |done| && (done[order[k]] <==> k < i)
  }

  lemma OneMoreDone(order: seq<int>, done: seq<bool>, i: int)
    requires FirstDone(order, done, i) && i < 256 && IsPermutation(order)
    ensures 0 <= order[i] < 256 && !done[order[i]] && FirstDone(order, done[order[i] := true], i + 1)
  {
    assert DoneAt(order, done, i, i);
    var g, j := done[order[i] := true], i + 1;
    forall k | 0 <= k < 256 ensures DoneAt(order, g, j, k) { assert DoneAt(order, done, i, k); }
  }

  lemma AllAreDone(order: seq<int>, done: seq<bool>)
    requires FirstDone(order, done, 256) && IsPermutation(order)
    ensures forall c :: 0 <= c < 256 ==> done[c]
  {
    forall c | 0 <= c < 256 ensures done[c] {
      var k := PermutationHits(order, c);
      assert DoneAt(order, done, 256, k);
    }
  }

  /** mainSort: unless the budget runs out, ptr lists all rotations in order. */
  method Sort(ptr: array<int>, block: array<int>, quadrant: array<int>, ftab: array<int>, nblock: nat, budget0: int,
              ghost b: seq<byte>) returns (budget: int)
    requires ptr != block && ptr != quadrant && ptr != ftab && block != quadrant && block != ftab && quadrant != ftab
    requires N_OVERSHOOT < nblock == |b| <= ptr.Length && nblock <= 900_000 && ftab.Length == 65537 && budget0 >= 0
    requires block.Length == quadrant.Length == nblock + N_OVERSHOOT && Holds(block[..], b)
    modifies ptr, block, quadrant, ftab
    ensures Overshot(block[..], b) && ptr[nblock..] == old(ptr[nblock..])
    ensures budget >= 0 ==> IsPermutation(ptr[..nblock]) && SortedBy(b, ptr[..nblock], nblock)
  {
    hide Progress, Setting, Overshot, Cached, Bucketed, Table, Marked, Holds, FirstDone, IsPermutation, SortedBy, Ascending;
    Prepare(ptr, block, quadrant, ftab, nblock, b);
    var runningOrder := RunningOrder(ftab);
    var bigDone := seq(256, _ => false);
    budget := budget0;
    ghost var order := runningOrder[..];
    BeginProgress(b, ptr[..nblock], ftab[..], bigDone);
    SettingHalves(block[..], quadrant[..], b);
    NoneDone(order, bigDone);
    var i := 0;
    while i <= 255
      invariant 0 <= i <= 256 && budget >= 0 && ptr[nblock..] == old(ptr[nblock..]) && runningOrder[..] == order
      invariant |bigDone| == 256 && Progress(b, ptr[..nblock], ftab[..], bigDone) && FirstDone(order, bigDone, i)
      invariant Setting(block[..], quadrant[..], b) && Overshot(block[..], b)
    {
      OneMoreDone(order, bigDone, i);
      assert runningOrder[i] == order[i];
      var ss := runningOrder[i];
      budget := BigBucket(ptr, block, quadrant, ftab, nblock, ss, i == 255, budget, bigDone, b);
      if budget < 0 { return; }
      bigDone := bigDone[ss := true];
      i := i + 1;
    }
    AllAreDone(order, bigDone);
    AllDone(b, ptr[..nblock], ftab[..], bigDone);
  }

  lemma NoneDone(order: seq<int>, done: seq<bool>)
    requires IsPermutation(order) && |order| == |done| == 256 && forall c :: 0 <= c < 256 ==> !done[c]
    ensures FirstDone(order, done, 0)
  {
    forall k | 0 <= k < 256 ensures DoneAt(order, done, 0, k) {}
  }
}
