/** How mainSort begins: counts of byte pairs, the radix sort on two bytes, the overshoot, and the order in which the big
    buckets are taken. */
module MainRadix {
  import opened Permutations
  import opened Counting
  import opened Rotations
  import opened MainOrder
  import opened MainBuckets
  import opened MainScan

  /** block holds b, whatever comes after it. */
  ghost predicate Holds(block: seq<int>, b: seq<byte>)
  {
    |b| <= |block| && forall i :: 0 <= i < |b| ==> block[i] == b[i]
  }

  /** The pair at i, from its byte and the pair after it: j's first byte moves down. */
  lemma PairFrom(b: seq<byte>, i: nat, j: int)
    requires i < |b| && 0 <= j && j / 256 == b[Next(|b|, i)]
    ensures (b[i] as int) * 256 + j / 256 == Pairs(b)[i] && Pairs(b)[i] / 256 == b[i] && 0 <= Pairs(b)[i] < 65536
    ensures i > 0 ==> Pairs(b)[i] / 256 == b[Next(|b|, i - 1)]
  {
  }

  /** ftab counts the pairs from i on. */
  ghost predicate Counts(b: seq<byte>, ftab: seq<int>, i: nat)
  {
    |ftab| == 65537 && i <= |b| && forall v :: 0 <= v < 65537 ==> CountAt(b, ftab, i, v)
  }

  ghost predicate CountAt(b: seq<byte>, ftab: seq<int>, i: nat, v: int)
  {
    i <= |b| && 0 <= v < |ftab| && ftab[v] == Occ(Pairs(b), i, |b|, v)
  }

  lemma CountStep(b: seq<byte>, ftab: seq<int>, i: nat)
    requires i < |b| && Counts(b, ftab, i + 1) && 0 <= Pairs(b)[i] < 65537
    ensures Counts(b, ftab[Pairs(b)[i] := ftab[Pairs(b)[i]] + 1], i)
  {
    hide Pairs;
    var p := Pairs(b);
    var g := ftab[p[i] := ftab[p[i]] + 1];
    forall v | 0 <= v < 65537 ensures CountAt(b, g, i, v) {
      assert CountAt(b, ftab, i + 1, v);
      OccSplit(p, i, i + 1, |b|, v);
    }
  }

  /** The frequency table of byte pairs; quadrant starts from zero. */
  method CountPairs(block: array<int>, quadrant: array<int>, ftab: array<int>, nblock: nat, ghost b: seq<byte>)
    requires quadrant != ftab && quadrant != block && ftab != block && Holds(block[..], b)
    requires 0 < nblock == |b| <= quadrant.Length && ftab.Length == 65537
    modifies quadrant, ftab
    ensures Counts(b, ftab[..], 0) && forall i :: 0 <= i < nblock ==> quadrant[i] == 0
  {
    hide Pairs, Counts, Holds;
    var i := 65536;
    while i >= 0
      invariant -1 <= i <= 65536 && forall v :: i < v < 65537 ==> ftab[v] == 0
      modifies ftab
    {
      ftab[i] := 0;
      i := i - 1;
    }
    NoCounts(b, ftab[..]);
    HeldAt(block[..], b, 0);
    var j := block[0] * 256;
    i := nblock - 1;
    while i >= 0
      invariant -1 <= i < nblock && Counts(b, ftab[..], i + 1) && Holds(block[..], b)
      invariant 0 <= j && (i >= 0 ==> j / 256 == b[Next(nblock, i)])
      invariant forall k :: i < k < nblock ==> quadrant[k] == 0
    {
      quadrant[i] := 0;
      PairFrom(b, i, j);
      HeldAt(block[..], b, i);
      j := block[i] * 256 + j / 256;
      CountStep(b, ftab[..], i);
      ghost var g := ftab[..][j := ftab[j] + 1];
      ftab[j] := ftab[j] + 1;
      assert ftab[..] == g;
      i := i - 1;
    }
  }

  lemma NoCounts(b: seq<byte>, ftab: seq<int>)
    requires |ftab| == 65537 && forall v :: 0 <= v < 65537 ==> ftab[v] == 0
    ensures Counts(b, ftab, |b|)
  {
    hide Pairs;
    forall v | 0 <= v < 65537 ensures CountAt(b, ftab, |b|, v) {}
  }

  lemma HeldAt(block: seq<int>, b: seq<byte>, i: nat)
    requires Holds(block, b) && i < |b|
    ensures i < |block| && block[i] == b[i]
  {
  }

  /** Up to i, ftab holds how many pairs are at most v. */
  ghost predicate Summed(b: seq<byte>, ftab: seq<int>, i: nat)
  {
    |ftab| == 65537 && forall v :: 0 <= v < 65537 ==> SumAt(b, ftab, i, v)
  }

  ghost predicate SumAt(b: seq<byte>, ftab: seq<int>, i: nat, v: int)
  {
    0 <= v < |ftab| && ftab[v] == if v < i then Below(Pairs(b), v + 1) else Occ(Pairs(b), 0, |b|, v)
  }

  lemma SumStep(b: seq<byte>, ftab: seq<int>, i: nat)
    requires Summed(b, ftab, i) && 1 <= i < 65537
    ensures Summed(b, ftab[i := ftab[i] + ftab[i - 1]], i + 1)
  {
    hide Pairs, Below;
    var g := ftab[i := ftab[i] + ftab[i - 1]];
    assert SumAt(b, ftab, i, i) && SumAt(b, ftab, i, i - 1);
    BelowNext(b, i);
    var k := i + 1;
    forall v | 0 <= v < 65537 ensures SumAt(b, g, k, v) { assert SumAt(b, ftab, i, v); }
  }

  lemma BelowNext(b: seq<byte>, v: nat)
    ensures Below(Pairs(b), v + 1) == Below(Pairs(b), v) + Occ(Pairs(b), 0, |b|, v)
  {
    hide Pairs;
  }

  lemma SumStart(b: seq<byte>, ftab: seq<int>)
    requires Counts(b, ftab, 0)
    ensures Summed(b, ftab, 1)
  {
    hide Pairs;
    BelowNext(b, 0);
    forall v | 0 <= v < 65537 ensures SumAt(b, ftab, 1, v) { assert CountAt(b, ftab, 0, v); }
  }

  method SumPairs(ftab: array<int>, ghost b: seq<byte>)
    requires ftab.Length == 65537 && Counts(b, ftab[..], 0)
    modifies ftab
    ensures Summed(b, ftab[..], 65537)
  {
    hide Summed, Counts;
    SumStart(b, ftab[..]);
    var i := 1;
    while i <= 65536
      invariant 1 <= i <= 65537 && Summed(b, ftab[..], i)
    {
      SumStep(b, ftab[..], i);
      ghost var g := ftab[..][i := ftab[i] + ftab[i - 1]];
      ftab[i] := ftab[i] + ftab[i - 1];
      assert ftab[..] == g;
      i := i + 1;
    }
  }

  /** Rotations i.. are in their slots, and ftab says where the others end. */
  ghost predicate Spread(b: seq<byte>, ftab: seq<int>, f: seq<int>, i: nat)
  {
    && |ftab| == 65537 && |f| == |b| && i <= |b| && AllNat(Pairs(b))
    && (forall v :: 0 <= v < 65537 ==> SpreadAt(b, ftab, i, v))
    && forall k :: i <= k < |b| ==> InSlot(b, f, k)
  }

  ghost predicate SpreadAt(b: seq<byte>, ftab: seq<int>, i: nat, v: int)
  {
    i <= |b| && 0 <= v < |ftab| && ftab[v] == Below(Pairs(b), v) + Occ(Pairs(b), 0, i, v)
  }

  ghost predicate InSlot(b: seq<byte>, f: seq<int>, k: int)
  {
    0 <= k < |b| && Pairs(b)[k] >= 0 && 0 <= Slot(Pairs(b), k) < |f| && f[Slot(Pairs(b), k)] == k
  }

  lemma SpreadStart(b: seq<byte>, ftab: seq<int>, f: seq<int>)
    requires Summed(b, ftab, 65537) && |f| == |b|
    ensures Spread(b, ftab, f, |b|)
  {
    hide Pairs, Below;
    PairsNat(b);
    forall v | 0 <= v < 65537 ensures SpreadAt(b, ftab, |b|, v) {
      assert SumAt(b, ftab, 65537, v);
      BelowNext(b, v);
    }
  }

  lemma SpreadStep(b: seq<byte>, ftab: seq<int>, f: seq<int>, i: nat)
    requires Spread(b, ftab, f, i + 1) && 0 <= Pairs(b)[i] < 65536
    ensures var s := Pairs(b)[i]; var j := ftab[s] - 1; 0 <= j < |b| && Spread(b, ftab[s := j], f[j := i], i)
  {
    hide Pairs, Below;
    var p := Pairs(b);
    var s := p[i];
    assert SpreadAt(b, ftab, i + 1, s);
    var j := ftab[s] - 1;
    SlotRange(p, i);
    assert j == Slot(p, i);
    var ftab', f' := ftab[s := j], f[j := i];
    forall v | 0 <= v < 65537 ensures SpreadAt(b, ftab', i, v) { assert SpreadAt(b, ftab, i + 1, v); }
    forall k | i <= k < |b| ensures InSlot(b, f', k) {
      if k > i {
        assert InSlot(b, f, k);
        SlotsDiffer(p, i, k);
      }
    }
  }

  lemma SlotsDiffer(p: seq<int>, i: nat, k: nat)
    requires i < k < |p| && AllNat(p)
    ensures Slot(p, i) != Slot(p, k)
  {
    hide Slot;
    SlotOrder(p, i, k);
    SlotOrder(p, k, i);
  }

  /** The radix sort, from the last rotation to the first. */
  method SpreadPairs(ptr: array<int>, block: array<int>, ftab: array<int>, nblock: nat, ghost b: seq<byte>)
    requires ptr != ftab && ptr != block && ftab != block && Holds(block[..], b) && ftab.Length == 65537
    requires 0 < nblock == |b| <= ptr.Length && Summed(b, ftab[..], 65537)
    modifies ptr, ftab
    ensures Spread(b, ftab[..], ptr[..nblock], 0) && ptr[nblock..] == old(ptr[nblock..])
  {
    hide Pairs, Spread, Summed, Holds;
    SpreadStart(b, ftab[..], ptr[..nblock]);
    HeldAt(block[..], b, 0);
    var s := block[0] * 256;
    var i := nblock - 1;
    while i >= 0
      invariant -1 <= i < nblock && Spread(b, ftab[..], ptr[..nblock], i + 1) && Holds(block[..], b)
      invariant 0 <= s && (i >= 0 ==> s / 256 == b[Next(nblock, i)]) && ptr[nblock..] == old(ptr[nblock..])
    {
      PairFrom(b, i, s);
      HeldAt(block[..], b, i);
      s := block[i] * 256 + s / 256;
      SpreadStep(b, ftab[..], ptr[..nblock], i);
      var j := ftab[s] - 1;
      ghost var g, f := ftab[..][s := j], ptr[..nblock][j := i];
      ftab[s] := j;
      ptr[j] := i;
      assert ftab[..] == g && ptr[..nblock] == f;
      i := i - 1;
    }
  }

  /** The list is bucketed, and ftab says where every bucket starts. */
  lemma SpreadDone(b: seq<byte>, ftab: seq<int>, f: seq<int>)
    requires Spread(b, ftab, f, 0) && |b| <= 900_000
    ensures Bucketed(b, f) && Table(b, ftab) && forall sb :: 0 <= sb < 65537 ==> !Marked(ftab[sb])
  {
    hide Pairs, Below;
    var p := Pairs(b);
    forall sb | 0 <= sb < 65537 ensures TableAt(b, ftab, sb) && !Marked(ftab[sb]) {
      assert SpreadAt(b, ftab, 0, sb);
      StartMono(b, sb, sb);
    }
    var slots := seq(|b|, k requires 0 <= k < |b| => Slot(p, k));
    forall k | 0 <= k < |b| ensures 0 <= slots[k] < |b| { SlotRange(p, k); }
    forall k, m | 0 <= k < m < |b| ensures slots[k] != slots[m] { SlotsDiffer(p, k, m); }
    forall k | 0 <= k < |f| ensures InPlace(b, f, k) && slots[f[k]] == k {
      var i := PermutationHits(slots, k);
      assert InSlot(b, f, i);
      SlotRange(p, i);
    }
    forall i, j | 0 <= i < j < |f| ensures f[i] != f[j] { assert slots[f[i]] == i && slots[f[j]] == j; }
  }

  /** The block's beginning again after its end, and no order cached yet. */
  method Overshoot(block: array<int>, quadrant: array<int>, nblock: nat, ghost b: seq<byte>)
    requires block != quadrant && N_OVERSHOOT < nblock == |b| && block.Length == quadrant.Length == nblock + N_OVERSHOOT
    requires Holds(block[..], b) && forall i :: 0 <= i < nblock ==> quadrant[i] == 0
    modifies block, quadrant
    ensures Overshot(block[..], b) && Cached(b, quadrant[..])
  {
    hide Rank;
    var i := 0;
    while i < N_OVERSHOOT
      invariant 0 <= i <= N_OVERSHOOT && forall k :: 0 <= k < nblock + i ==> quadrant[k] == 0
      invariant forall k :: 0 <= k < nblock + i ==> block[k] == b[Wrap(nblock, k)]
    {
      block[nblock + i] := block[i];
      quadrant[nblock + i] := 0;
      i := i + 1;
    }
    forall x, y | 0 <= x < |b| && 0 <= y < |b| ensures CachedPair(b, quadrant[..], x, y) {}
  }

  /** Everything before the running order. */
  method Prepare(ptr: array<int>, block: array<int>, quadrant: array<int>, ftab: array<int>, nblock: nat, ghost b: seq<byte>)
    requires ptr != block && ptr != quadrant && ptr != ftab && block != quadrant && block != ftab && quadrant != ftab
    requires N_OVERSHOOT < nblock == |b| <= ptr.Length && nblock <= 900_000 && ftab.Length == 65537
    requires block.Length == quadrant.Length == nblock + N_OVERSHOOT && Holds(block[..], b)
    modifies ptr, block, quadrant, ftab
    ensures Overshot(block[..], b) && Cached(b, quadrant[..]) && ptr[nblock..] == old(ptr[nblock..])
    ensures Bucketed(b, ptr[..nblock]) && Table(b, ftab[..]) && forall sb :: 0 <= sb < 65537 ==> !Marked(ftab[sb])
  {
    hide Pairs, Spread, Summed, Holds, Counts, Overshot, Cached, Bucketed, Table, Marked;
    CountPairs(block, quadrant, ftab, nblock, b);
    Overshoot(block, quadrant, nblock, b);
    StillHolds(block[..], b);
    SumPairs(ftab, b);
    SpreadPairs(ptr, block, ftab, nblock, b);
    SpreadDone(b, ftab[..], ptr[..nblock]);
  }

  lemma StillHolds(block: seq<int>, b: seq<byte>)
    requires Overshot(block, b)
    ensures Holds(block, b)
  {
    forall i | 0 <= i < |b| ensures block[i] == b[i] { assert block[i] == b[Wrap(|b|, i)]; }
  }

  // ----- the running order

  /** BIGFREQ. */
  function BigFreq(ftab: seq<int>, c: int): int
  {
    if |ftab| == 65537 && 0 <= c < 256 then ftab[(c + 1) * 256] - ftab[c * 256] else 0
  }

  ghost predicate Ascending(ftab: seq<int>, order: seq<int>, k: int)
  {
    forall i, j :: 0 <= i < j < k <= |order| ==> BigFreq(ftab, order[i]) <= BigFreq(ftab, order[j])
  }

  /** The list with v put down at j is in order below i, but for what is above v. */
  ghost predicate SinkingTo(ftab: seq<int>, order: seq<int>, v: int, j: int, i: int)
  {
    && 0 <= j <= i < |order|
    && (forall p, q :: 0 <= p < q <= i && p != j && q != j ==> BigFreq(ftab, order[p]) <= BigFreq(ftab, order[q]))
    && forall q :: j < q <= i ==> BigFreq(ftab, v) <= BigFreq(ftab, order[q])
  }

  /** One entry of the shell sort, h places at a time. */
  method InsertBig(order: array<int>, ftab: array<int>, i: nat, h: nat)
    requires order != ftab && order.Length == 256 && 1 <= h <= i < 256 && IsPermutation(order[..])
    modifies order
    ensures IsPermutation(order[..])
    ensures h == 1 && old(Ascending(ftab[..], order[..], i)) ==> Ascending(ftab[..], order[..], i + 1)
  {
    hide BigFreq, IsPermutation;
    ghost var ordered := h == 1 && Ascending(ftab[..], order[..], i);
    var vv := order[i];
    var j := i;
    assert order[..][i := vv] == order[..];
    while BigFreq(ftab[..], order[j - h]) > BigFreq(ftab[..], vv)
      invariant h <= j <= i && IsPermutation(order[..][j := vv])
      invariant ordered ==> SinkingTo(ftab[..], order[..], vv, j, i)
      decreases j
    {
      ghost var g := order[..];
      order[j] := order[j - h];
      Sunk(g, j, j - h, vv);
      assert order[..] == g[j := g[j - h]];
      j := j - h;
      if j <= h - 1 { break; }
    }
    order[j] := vv;
    assert order[..] == order[..][j := vv];
  }

  /** Moving an entry up and putting v in its place keeps the list a permutation. */
  lemma Sunk(g: seq<int>, j: nat, k: nat, v: int)
    requires j < |g| && k < |g| && k != j && IsPermutation(g[j := v])
    ensures IsPermutation(g[j := g[k]][k := v])
  {
    var s := g[j := v];
    assert g[j := g[k]][k := v] == Swap(s, j, k);
    SwapRearranges(s, j, k, 0, |s|);
    RearrangedPermutation(s, Swap(s, j, k), 0, |s|);
  }

  /** The big buckets, least full first. */
  method RunningOrder(ftab: array<int>) returns (order: array<int>)
    requires ftab.Length == 65537
    ensures fresh(order) && order.Length == 256 && IsPermutation(order[..]) && Ascending(ftab[..], order[..], 256)
  {
    hide IsPermutation, BigFreq;
    order := new int[256];
    var i := 0;
    while i <= 255
      invariant 0 <= i <= 256 && forall k :: 0 <= k < i ==> order[k] == k
      modifies order
    {
      order[i] := i;
      i := i + 1;
    }
    IdentityPermutes(order[..]);
    var h := 4;
    while h <= 256
      invariant h in {4, 13, 40, 121, 364}
    {
      h := 3 * h + 1;
    }
    while h != 1
      invariant h in {364, 121, 40, 13, 4, 1} && IsPermutation(order[..])
      invariant h == 1 ==> Ascending(ftab[..], order[..], 256)
      modifies order
      decreases h
    {
      h := h / 3;
      i := h;
      while i <= 255
        invariant h <= i <= 256 && IsPermutation(order[..]) && (h == 1 ==> Ascending(ftab[..], order[..], i))
        modifies order
      {
        InsertBig(order, ftab, i, h);
        i := i + 1;
      }
    }
  }

  lemma IdentityPermutes(s: seq<int>)
    requires forall k :: 0 <= k < |s| ==> s[k] == k
    ensures IsPermutation(s)
  {
  }
}
