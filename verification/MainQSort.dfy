/** mainSimpleSort and mainQSort3: sorting a stretch of ptr whose rotations agree on their first d bytes. */
module MainQSort {
  import opened Bits
  import opened Permutations
  import opened Rotations
  import opened MainOrder
  import opened FallbackQSort

  const QSORT_SMALL_THRESH := 20
  const QSORT_DEPTH_THRESH := 14
  const QSORT_STACK_SIZE := 100
  const INCS := [1, 4, 13, 40, 121, 364, 1093, 3280, 9841, 29524, 88573, 265720, 797161, 2391484]

  /** What the comparisons rely on. */
  ghost predicate Setting(block: seq<int>, quadrant: seq<int>, b: seq<byte>)
  {
    Overshot(block, b) && Cached(b, quadrant)
  }

  /** Rotations lo..hi of f all agree on their first d bytes. */
  ghost predicate Agree(b: seq<byte>, f: seq<int>, lo: int, hi: int, d: nat)
  {
    && 0 <= lo && hi < |f| && (forall t :: lo <= t <= hi ==> 0 <= f[t] < |b|)
    && forall s, t :: lo <= s <= hi && lo <= t <= hi ==> Cmp(b, f[s], f[t], d) == 0
  }

  /** Comparing d bytes on decides, for rotations that agree on d bytes. */
  lemma {:induction false} Deeper(b: seq<byte>, x: nat, y: nat, d: nat, greater: bool)
    requires x < |b| && y < |b| && d <= |b| && Cmp(b, x, y, d) == 0
    requires Answers(b, Advance(|b|, x, d), Advance(|b|, y, d), greater)
    ensures Answers(b, x, y, greater)
    decreases d
  {
    hide Rank;
    if d > 0 {
      Deeper(b, Next(|b|, x), Next(|b|, y), d - 1, greater);
      RankStep(b, x, y);
      RankStep(b, y, x);
    }
  }

  method GreaterAt(x: nat, y: nat, d: nat, block: array<int>, quadrant: array<int>, nblock: nat, budget0: int,
                   ghost b: seq<byte>) returns (greater: bool, budget: int)
    requires nblock == |b| && Setting(block[..], quadrant[..], b) && x < nblock && y < nblock && d <= 15
    requires Cmp(b, x, y, d) == 0
    ensures Answers(b, x, y, greater) && budget <= budget0
  {
    hide Rank, Cmp, Answers, Advance;
    greater, budget := GtU(x + d, y + d, block, quadrant, nblock, budget0, b);
    AdvanceClosed(nblock, x, d);
    AdvanceClosed(nblock, y, d);
    Deeper(b, x, y, d, greater);
  }

  /** ptr with v put down at j. */
  function With(s: seq<int>, j: int, v: int): (r: seq<int>)
    requires 0 <= j < |s|
    ensures |r| == |s|
  {
    s[j := v]
  }

  lemma WithSwap(s: seq<int>, j: nat, h: nat, v: int)
    requires h <= j < |s| && h > 0
    ensures With(s[j := s[j - h]], j - h, v) == Swap(With(s, j, v), j, j - h)
  {
  }

  lemma AgreeShuffled(b: seq<byte>, f: seq<int>, g: seq<int>, lo: int, hi: int, d: nat)
    requires 0 <= lo <= hi + 1 && Agree(b, f, lo, hi, d) && Rearranged(f, g, lo, hi + 1)
    ensures Agree(b, g, lo, hi, d) && |g| == |f|
  {
    hide Cmp;
    forall t | lo <= t <= hi ensures 0 <= g[t] < |b| {
      var j := RearrangedSource(f, g, lo, hi + 1, t);
    }
    forall s, t | lo <= s <= hi && lo <= t <= hi ensures Cmp(b, g[s], g[t], d) == 0 {
      var i := RearrangedSource(f, g, lo, hi + 1, s);
      var j := RearrangedSource(f, g, lo, hi + 1, t);
    }
  }

  /** With gap 1: lo..i is sorted but for the entry at j, which nothing above it comes before. */
  ghost predicate Sinking(b: seq<byte>, f: seq<int>, lo: int, j: int, i: int)
  {
    && InRange(f, Rank(b), lo, i + 1) && lo <= j <= i
    && (forall s, t :: lo <= s < t <= i && s != j && t != j ==> Rank(b)[f[s]] <= Rank(b)[f[t]])
    && (forall t :: j < t <= i ==> Rank(b)[f[j]] <= Rank(b)[f[t]])
  }

  lemma SinkStep(b: seq<byte>, f: seq<int>, lo: int, j: int, i: int)
    requires Sinking(b, f, lo, j, i) && lo < j && Answers(b, f[j - 1], f[j], true)
    ensures Sinking(b, Swap(f, j, j - 1), lo, j - 1, i)
  {
    hide Rank;
  }

  lemma SinkEnd(b: seq<byte>, f: seq<int>, lo: int, j: int, i: int)
    requires Sinking(b, f, lo, j, i) && (lo < j ==> Answers(b, f[j - 1], f[j], false))
    ensures SortedByClass(f, Rank(b), lo, i + 1)
  {
    hide Rank;
  }

  lemma SinkStart(b: seq<byte>, f: seq<int>, lo: int, i: int)
    requires lo <= i && InRange(f, Rank(b), lo, i + 1) && SortedByClass(f, Rank(b), lo, i)
    ensures Sinking(b, f, lo, i, i)
  {
    hide Rank;
  }

  /** One insertion: the entry at i goes down past those that come after it, h places at a time. */
  method Insert(ptr: array<int>, block: array<int>, quadrant: array<int>, nblock: nat, lo: nat, hi: nat, i: nat, h: nat,
                d: nat, budget0: int, ghost b: seq<byte>) returns (budget: int)
    requires ptr != block && ptr != quadrant && nblock == |b| && Setting(block[..], quadrant[..], b) && d <= 15 && h >= 1
    requires lo + h <= i <= hi < ptr.Length && Agree(b, ptr[..], lo, hi, d)
    modifies ptr
    ensures Rearranged(old(ptr[..]), ptr[..], lo, hi + 1) && budget <= budget0
    ensures h == 1 && old(SortedByOrder(b, ptr[..], lo, i)) ==> SortedByOrder(b, ptr[..], lo, i + 1)
  {
    hide Rank, Cmp, Answers, Rearranged, Setting, Before;
    budget := budget0;
    ghost var f := ptr[..];
    ghost var ordered := h == 1 && SortedByOrder(b, f, lo, i);
    var v := ptr[i];
    var j := i;
    RearrangedRefl(f, lo, hi + 1);
    assert With(f, i, v) == f;
    if ordered { SinkStart(b, f, lo, i); }
    while true
      invariant lo <= j <= i && j >= lo + h && block[..] == old(block[..]) && quadrant[..] == old(quadrant[..])
      invariant Rearranged(f, With(ptr[..], j, v), lo, hi + 1) && budget <= budget0
      invariant ordered ==> Sinking(b, With(ptr[..], j, v), lo, j, i)
      decreases j
    {
      ghost var g := With(ptr[..], j, v);
      AgreeShuffled(b, f, g, lo, hi, d);
      assert g[j] == v && g[j - h] == ptr[j - h];
      var greater;
      greater, budget := GreaterAt(ptr[j - h], v, d, block, quadrant, nblock, budget, b);
      if !greater {
        if ordered { SinkEnd(b, g, lo, j, i); }
        break;
      }
      WithSwap(ptr[..], j, h, v);
      SwapThen(f, g, j, j - h, lo, hi + 1);
      if ordered { SinkStep(b, g, lo, j, i); }
      ghost var was := ptr[..];
      ptr[j] := ptr[j - h];
      assert ptr[..] == was[j := was[j - h]];
      j := j - h;
      if j <= lo + h - 1 {
        if ordered { SinkEnd(b, With(ptr[..], j, v), lo, j, i); }
        break;
      }
    }
    ghost var last := With(ptr[..], j, v);
    ptr[j] := v;
    assert ptr[..] == last;
  }

  /** Positions lo..hi-1 of f are rotations in order. */
  ghost predicate SortedByOrder(b: seq<byte>, f: seq<int>, lo: int, hi: int)
  {
    InRange(f, Rank(b), lo, hi) && SortedByClass(f, Rank(b), lo, hi)
  }

  lemma RearrangedRefl(f: seq<int>, lo: nat, hi: nat)
    requires lo <= hi <= |f|
    ensures Rearranged(f, f, lo, hi)
  {
  }

  lemma SwapThen(f: seq<int>, g: seq<int>, i: nat, j: nat, lo: nat, hi: nat)
    requires lo <= i < hi <= |f| && lo <= j < hi && Rearranged(f, g, lo, hi)
    ensures Rearranged(f, Swap(g, i, j), lo, hi)
  {
    SwapRearranges(g, i, j, lo, hi);
    RearrangedTrans(f, g, Swap(g, i, j), lo, hi);
  }

  lemma ThenRearranged(f: seq<int>, g: seq<int>, h: seq<int>, lo: nat, hi: nat)
    requires lo <= hi <= |f| && Rearranged(f, g, lo, hi) && Rearranged(g, h, lo, hi)
    ensures Rearranged(f, h, lo, hi)
  {
    RearrangedTrans(f, g, h, lo, hi);
  }

  /** One pass with gap h, unless the budget runs out on the way. */
  method GapPass(ptr: array<int>, block: array<int>, quadrant: array<int>, nblock: nat, lo: nat, hi: nat, h: nat, d: nat,
                 budget0: int, ghost b: seq<byte>) returns (budget: int, given: bool)
    requires ptr != block && ptr != quadrant && nblock == |b| && Setting(block[..], quadrant[..], b) && d <= 15 && h >= 1
    requires lo < hi < ptr.Length && Agree(b, ptr[..], lo, hi, d)
    modifies ptr
    ensures Rearranged(old(ptr[..]), ptr[..], lo, hi + 1) && budget <= budget0
    ensures given ==> budget < 0
    ensures !given && h == 1 ==> SortedByOrder(b, ptr[..], lo, hi + 1)
  {
    hide Rearranged, Setting, SortedByOrder, Agree, Rank;
    ghost var f := ptr[..];
    RearrangedRefl(f, lo, hi + 1);
    OneSorted(b, f, lo, hi, d);
    budget, given := budget0, false;
    var i := lo + h;
    while true
      invariant lo + h <= i && (i <= hi + 1 || i == lo + h) && Setting(block[..], quadrant[..], b)
      invariant Rearranged(f, ptr[..], lo, hi + 1) && Agree(b, ptr[..], lo, hi, d) && budget <= budget0
      invariant h == 1 ==> SortedByOrder(b, ptr[..], lo, i)
      decreases hi + 1 - i
    {
      ghost var i0 := i;
      var copy := 0;
      while copy < 3 && i <= hi
        invariant 0 <= copy <= 3 && lo + h <= i && (i <= hi + 1 || i == lo + h) && Setting(block[..], quadrant[..], b)
        invariant Rearranged(f, ptr[..], lo, hi + 1) && Agree(b, ptr[..], lo, hi, d) && budget <= budget0
        invariant h == 1 ==> SortedByOrder(b, ptr[..], lo, i)
        invariant i == i0 + copy
        decreases hi + 1 - i
      {
        ghost var g := ptr[..];
        budget := Insert(ptr, block, quadrant, nblock, lo, hi, i, h, d, budget, b);
        AgreeShuffled(b, g, ptr[..], lo, hi, d);
        ThenRearranged(f, g, ptr[..], lo, hi + 1);
        i := i + 1;
        copy := copy + 1;
      }
      if copy < 3 { break; }
      if budget < 0 { return budget, true; }
    }
  }

  lemma OneSorted(b: seq<byte>, f: seq<int>, lo: int, hi: int, d: nat)
    requires lo <= hi && Agree(b, f, lo, hi, d)
    ensures SortedByOrder(b, f, lo, lo + 1)
  {
  }

  /** mainSimpleSort: Shell's sort. If the budget lasts, the stretch is in order. */
  method SimpleSort(ptr: array<int>, block: array<int>, quadrant: array<int>, nblock: nat, lo: int, hi: int, d: nat,
                    budget0: int, ghost b: seq<byte>) returns (budget: int)
    requires ptr != block && ptr != quadrant && nblock == |b| && Setting(block[..], quadrant[..], b) && d <= 15
    requires 0 <= lo <= hi + 1 <= ptr.Length && hi - lo < 900_000 && Agree(b, ptr[..], lo, hi, d)
    modifies ptr
    ensures Rearranged(old(ptr[..]), ptr[..], lo, hi + 1) && budget <= budget0
    ensures budget >= 0 ==> SortedByOrder(b, ptr[..], lo, hi + 1)
  {
    hide Rearranged, Setting, Agree, Rank;
    budget := budget0;
    ghost var f := ptr[..];
    RearrangedRefl(f, lo, hi + 1);
    AgreeInRange(b, f, lo, hi, d);
    var bigN := hi - lo + 1;
    if bigN < 2 { return; }
    var hp := 0;
    while INCS[hp] < bigN
      invariant 0 <= hp < 14 && (hp > 0 ==> INCS[hp - 1] < bigN)
      decreases 14 - hp
    {
      hp := hp + 1;
    }
    hp := hp - 1;
    ghost var sorted := false;
    while hp >= 0
      invariant -1 <= hp < 14 && Setting(block[..], quadrant[..], b) && budget <= budget0
      invariant Rearranged(f, ptr[..], lo, hi + 1) && Agree(b, ptr[..], lo, hi, d)
      invariant hp == -1 ==> SortedByOrder(b, ptr[..], lo, hi + 1)
      decreases hp
    {
      ghost var g := ptr[..];
      var given;
      budget, given := GapPass(ptr, block, quadrant, nblock, lo, hi, INCS[hp], d, budget, b);
      AgreeShuffled(b, g, ptr[..], lo, hi, d);
      ThenRearranged(f, g, ptr[..], lo, hi + 1);
      if given { return; }
      hp := hp - 1;
    }
  }

  lemma AgreeInRange(b: seq<byte>, f: seq<int>, lo: int, hi: int, d: nat)
    requires 0 <= lo <= hi + 1 <= |f| && Agree(b, f, lo, hi, d)
    ensures InRange(f, Rank(b), lo, hi + 1) && (hi <= lo ==> SortedByOrder(b, f, lo, hi + 1))
  {
  }

  // ----- the stack of mainQSort3

  function Lg(s: nat): (r: nat)
  {
    if s == 0 then 0 else 1 + Lg(s / 2)
  }

  lemma {:induction false} LgMono(s: nat, t: nat)
    requires s <= t
    ensures Lg(s) <= Lg(t)
  {
    if s > 0 { LgMono(s / 2, t / 2); }
  }

  lemma LgHalf(s: nat, t: nat)
    requires 2 * s <= t && t > 0
    ensures Lg(s) + 1 <= Lg(t)
  {
    LgMono(s, t / 2);
  }

  lemma {:induction false} LgUnder(s: nat, k: nat)
    requires s < Pow2(k)
    ensures Lg(s) <= k
  {
    if s > 0 { LgUnder(s / 2, k - 1); }
  }

  function Size(x: Frame): nat
  {
    if x.hi < x.lo then 0 else x.hi - x.lo + 1
  }

  /** A frame i places up the stack is small: sorting it needs twice its number of binary digits more. */
  ghost predicate LowEnough(st: seq<Frame>, depth: nat)
  {
    forall i :: 0 <= i < |st| ==> i + 2 * Lg(Size(st[i])) + 1 <= depth
  }

  /** The work left: three times the sizes, for each depth still to go. */
  function Effort(st: seq<Frame>, ds: seq<int>): (r: int)
    requires |st| == |ds|
  {
    if st == [] then 0
    else var k := |st| - 1; Effort(st[..k], ds[..k]) + 3 * (16 - ds[k]) * Size(st[k]) + 1
  }

  lemma EffortPush(st: seq<Frame>, ds: seq<int>, x: Frame, d: int)
    requires |st| == |ds|
    ensures Effort(st + [x], ds + [d]) == Effort(st, ds) + 3 * (16 - d) * Size(x) + 1
  {
    assert (st + [x])[..|st|] == st && (ds + [d])[..|ds|] == ds;
  }

  lemma {:induction false} EffortNat(st: seq<Frame>, ds: seq<int>)
    requires |st| == |ds| && forall i :: 0 <= i < |ds| ==> ds[i] <= 15
    ensures Effort(st, ds) >= |st|
  {
    if st != [] { EffortNat(st[..|st| - 1], ds[..|st| - 1]); }
  }

  /** Each frame's rotations agree on as many bytes as its depth says. */
  ghost predicate FrameAgrees(b: seq<byte>, f: seq<int>, x: Frame, d: int)
  {
    2 <= d <= 15 && Agree(b, f, x.lo, x.hi, d)
  }

  ghost predicate FramesAgree(b: seq<byte>, f: seq<int>, st: seq<Frame>, ds: seq<int>)
  {
    |st| == |ds| && forall i :: 0 <= i < |st| ==> FrameAgrees(b, f, st[i], ds[i])
  }

  ghost predicate Sorting(b: seq<byte>, f0: seq<int>, f: seq<int>, st: seq<Frame>, ds: seq<int>, lo: int, hi: int, depth: nat)
  {
    && 0 <= lo <= hi < |f0| && Shuffled(f0, f, Rank(b), lo, hi + 1) && StackOk(st, lo, hi)
    && OrderedExcept(f, Rank(b), st, lo, hi) && FramesAgree(b, f, st, ds) && LowEnough(st, depth)
  }

  /** Reordering one frame's rotations leaves the other frames alone. */
  lemma OthersAgree(b: seq<byte>, f: seq<int>, g: seq<int>, rest: seq<Frame>, ds: seq<int>, x: Frame, lo: int, hi: int)
    requires StackOk(rest + [x], lo, hi) && FramesAgree(b, f, rest, ds)
    requires 0 <= x.lo <= x.hi + 1 <= |f| && Rearranged(f, g, x.lo, x.hi + 1)
    ensures FramesAgree(b, g, rest, ds)
  {
    hide Cmp;
    forall i | 0 <= i < |rest| ensures FrameAgrees(b, g, rest[i], ds[i]) {
      assert FrameAgrees(b, f, rest[i], ds[i]);
      assert (rest + [x])[i] == rest[i] && (rest + [x])[|rest|] == x;
    }
  }

  lemma PopLow(rest: seq<Frame>, x: Frame, lo: int, hi: int, depth: nat)
    requires StackOk(rest + [x], lo, hi) && LowEnough(rest + [x], depth)
    ensures StackOk(rest, lo, hi) && LowEnough(rest, depth) && lo <= x.lo <= x.hi + 1 <= hi + 1
    ensures |rest| + 2 * Lg(Size(x)) + 1 <= depth
  {
    hide Lg;
    assert (rest + [x])[|rest|] == x;
    forall i | 0 <= i < |rest| ensures (rest + [x])[i] == rest[i] {}
  }

  /** Three parts of a frame in its place, the largest lowest: the stack stays disjoint, and low enough. */
  lemma PushThree(rest: seq<Frame>, x: Frame, p: Frame, q: Frame, r: Frame, lo: int, hi: int, depth: nat)
    requires StackOk(rest + [x], lo, hi) && LowEnough(rest + [x], depth) && Size(x) > 0
    requires Within(p, x) && Within(q, x) && Within(r, x) && Disjoint(p, q) && Disjoint(q, r) && Disjoint(p, r)
    requires Size(p) >= Size(q) >= Size(r) && Size(p) + Size(q) + Size(r) <= Size(x)
    ensures StackOk(rest + [p, q, r], lo, hi) && LowEnough(rest + [p, q, r], depth)
  {
    hide Lg;
    PopLow(rest, x, lo, hi, depth);
    var k, st := |rest|, rest + [p, q, r];
    assert st[k] == p && st[k + 1] == q && st[k + 2] == r && (rest + [x])[k] == x;
    forall i | 0 <= i < k ensures st[i] == rest[i] == (rest + [x])[i] {}
    LgMono(Size(p), Size(x));
    LgHalf(Size(q), Size(x));
    LgHalf(Size(r), Size(x));
  }

  ghost predicate Within(p: Frame, x: Frame)
  {
    x.lo <= p.lo <= p.hi + 1 <= x.hi + 1
  }

  ghost predicate Disjoint(p: Frame, q: Frame)
  {
    p.hi < q.lo || q.hi < p.lo
  }

  /** The three parts take less effort than the whole, the middle part being one byte deeper and not empty. */
  lemma EffortThree(rest: seq<Frame>, ds: seq<int>, x: Frame, d: int, p: Frame, q: Frame, r: Frame, dp: int, dq: int, dr: int)
    requires |rest| == |ds| && 2 <= d <= 14 && d <= dp <= d + 1 && d <= dq <= d + 1 && d <= dr <= d + 1
    requires Size(p) + Size(q) + Size(r) == Size(x)
    requires (dp == d + 1 && Size(p) > 0) || (dq == d + 1 && Size(q) > 0) || (dr == d + 1 && Size(r) > 0)
    ensures Effort(rest + [p, q, r], ds + [dp, dq, dr]) < Effort(rest + [x], ds + [d])
  {
    hide Effort;
    EffortPush(rest, ds, x, d);
    EffortPush(rest, ds, p, dp);
    EffortPush(rest + [p], ds + [dp], q, dq);
    EffortPush(rest + [p] + [q], ds + [dp] + [dq], r, dr);
    assert rest + [p, q, r] == rest + [p] + [q] + [r] && ds + [dp, dq, dr] == ds + [dp] + [dq] + [dr];
    EffortLess(16 - d, Size(p), 16 - dp);
    EffortLess(16 - d, Size(q), 16 - dq);
    EffortLess(16 - d, Size(r), 16 - dr);
    Distribute(16 - d, Size(p), Size(q), Size(r), Size(x));
  }

  lemma EffortLess(e: int, s: nat, e': int)
    requires e - 1 <= e' <= e
    ensures 3 * e' * s <= 3 * e * s && (e' == e - 1 ==> 3 * e' * s == 3 * e * s - 3 * s)
  {
    if e' == e - 1 {
      assert 3 * (e - 1) * s == 3 * e * s - 3 * s;
    }
  }

  lemma Distribute(e: int, p: nat, q: nat, r: nat, x: nat)
    requires p + q + r == x
    ensures 3 * e * p + 3 * e * q + 3 * e * r == 3 * e * x
  {
  }

  // ----- splitting the top frame

  /** Byte d of each rotation. */
  ghost function Byte(b: seq<byte>, d: nat): (r: seq<int>)
    requires d <= |b|
    ensures |r| == |b| && forall x :: 0 <= x < |b| ==> r[x] == b[Wrap(|b|, x + d)]
  {
    seq(|b|, x requires 0 <= x < |b| => b[Wrap(|b|, x + d)])
  }

  lemma BlockKeys(block: seq<int>, b: seq<byte>, d: nat)
    requires Overshot(block, b) && d <= N_OVERSHOOT
    ensures Keys(block, d, Byte(b, d))
  {
    forall x | 0 <= x < |b| ensures block[d + x] == Byte(b, d)[x] {
      assert block[d + x] == b[Wrap(|b|, d + x)];
    }
  }

  /** One byte deeper, for rotations whose next byte is the same. */
  lemma AgreeDeeper(b: seq<byte>, f: seq<int>, lo: int, hi: int, d: nat, med: int)
    requires Agree(b, f, lo, hi, d) && d < |b| && forall t :: lo <= t <= hi ==> Byte(b, d)[f[t]] == med
    ensures Agree(b, f, lo, hi, d + 1)
  {
    hide Cmp, Advance;
    forall s, t | lo <= s <= hi && lo <= t <= hi ensures Cmp(b, f[s], f[t], d + 1) == 0 {
      NextEqual(b, f[s], f[t], d);
    }
  }

  lemma NextEqual(b: seq<byte>, x: nat, y: nat, d: nat)
    requires x < |b| && y < |b| && d < |b| && Cmp(b, x, y, d) == 0 && Byte(b, d)[x] == Byte(b, d)[y]
    ensures Cmp(b, x, y, d + 1) == 0
  {
    CmpSplit(b, x, y, d, 1);
    AdvanceClosed(|b|, x, d);
    AdvanceClosed(|b|, y, d);
    assert Cmp(b, Wrap(|b|, x + d), Wrap(|b|, y + d), 1) == 0;
  }

  /** A smaller next byte comes first, after d equal ones. */
  lemma ByteOrders(b: seq<byte>, x: nat, y: nat, d: nat)
    requires x < |b| && y < |b| && d < |b| && Cmp(b, x, y, d) == 0 && Byte(b, d)[x] < Byte(b, d)[y]
    ensures Rank(b)[x] <= Rank(b)[y]
  {
    hide Rank, Cmp, Advance;
    AdvanceClosed(|b|, x, d);
    AdvanceClosed(|b|, y, d);
    RankStep(b, Wrap(|b|, x + d), Wrap(|b|, y + d));
    CmpAnti(b, x, y, d);
    Deeper(b, y, x, d, true);
  }

  lemma AgreePart(b: seq<byte>, f: seq<int>, lo: int, hi: int, d: nat, lo': int, hi': int)
    requires Agree(b, f, lo, hi, d) && lo <= lo' && hi' <= hi
    ensures Agree(b, f, lo', hi', d)
  {
  }

  /** After a split by byte d, rotations from different parts are in order. */
  lemma PartsInOrder(b: seq<byte>, g: seq<int>, x: Frame, d: nat, med: int, n: int, m: int, more: seq<Frame>)
    requires d < |b| && Agree(b, g, x.lo, x.hi, d) && InRange(g, Byte(b, d), x.lo, x.hi + 1)
    requires Split3(g, Byte(b, d), med, x.lo, n, m, x.hi)
    requires Frame(x.lo, n) in more && Frame(m, x.hi) in more && Frame(n + 1, m - 1) in more
    ensures forall p, q :: x.lo <= p < q <= x.hi ==> Rank(b)[g[p]] <= Rank(b)[g[q]] || Pending(more, p, q)
  {
    hide Rank, Cmp, Byte;
    forall p, q | x.lo <= p < q <= x.hi ensures Rank(b)[g[p]] <= Rank(b)[g[q]] || Pending(more, p, q) {
      if q <= n {
        InMore(more, Frame(x.lo, n), p, q);
      } else if m <= p {
        InMore(more, Frame(m, x.hi), p, q);
      } else if n < p && q < m {
        InMore(more, Frame(n + 1, m - 1), p, q);
      } else {
        ByteOrders(b, g[p], g[q], d);
      }
    }
  }

  lemma InMore(more: seq<Frame>, x: Frame, p: int, q: int)
    requires x in more && x.lo <= p && q <= x.hi
    ensures Pending(more, p, q)
  {
    var i :| 0 <= i < |more| && more[i] == x;
  }

  function Med3(a: int, b: int, c: int): (r: int)
    ensures r == a || r == b || r == c
    ensures (a <= r && b <= r) || (a <= r && c <= r) || (b <= r && c <= r)
    ensures (a >= r && b >= r) || (a >= r && c >= r) || (b >= r && c >= r)
  {
    var a', b' := if a > b then b else a, if a > b then a else b;
    if b' > c then (if a' > c then a' else c) else b'
  }

  /** The middle of the split is where the median's byte is. */
  lemma MiddleThere(b: seq<byte>, f: seq<int>, g: seq<int>, x: Frame, d: nat, med: int, n: int, m: int, w: int)
    requires d < |b| && 0 <= x.lo <= w <= x.hi < |f| && Shuffled(f, g, Byte(b, d), x.lo, x.hi + 1)
    requires Split3(g, Byte(b, d), med, x.lo, n, m, x.hi) && 0 <= f[w] < |b| && Byte(b, d)[f[w]] == med
    ensures n + 1 < m
  {
    SplitNonEmptyMiddle(f, g, Byte(b, d), med, x, n, m, w);
  }

  /** The median of the bytes at the ends and the middle of the stretch, and where it occurs. */
  method Median(ptr: array<int>, block: array<int>, x: Frame, d: nat, ghost b: seq<byte>) returns (med: int, ghost w: int)
    requires Overshot(block[..], b) && d <= 14 && 0 <= x.lo < x.hi < ptr.Length && Agree(b, ptr[..], x.lo, x.hi, d)
    ensures x.lo <= w <= x.hi && 0 <= ptr[w] < |b| && Byte(b, d)[ptr[w]] == med
  {
    hide Cmp, Byte;
    BlockKeys(block[..], b, d);
    var mid := (x.lo + x.hi) / 2;
    assert ptr[..][x.lo] == ptr[x.lo] && ptr[..][x.hi] == ptr[x.hi] && ptr[..][mid] == ptr[mid];
    assert block[..][d + ptr[x.lo]] == block[d + ptr[x.lo]] && block[..][d + ptr[x.hi]] == block[d + ptr[x.hi]];
    assert block[..][d + ptr[mid]] == block[d + ptr[mid]];
    med := Med3(block[ptr[x.lo] + d], block[ptr[x.hi] + d], block[ptr[mid] + d]);
    w := if med == block[ptr[x.lo] + d] then x.lo else if med == block[ptr[x.hi] + d] then x.hi else mid;
  }

  /** Three parts with their depths, in some order: the third of those given is one byte deeper. */
  ghost predicate Depths(p0: Frame, q0: Frame, r0: Frame, d: int, p: Frame, q: Frame, r: Frame, dp: int, dq: int, dr: int)
  {
    || (r == r0 && dr == d + 1 && dp == dq == d && ((p == p0 && q == q0) || (p == q0 && q == p0)))
    || (q == r0 && dq == d + 1 && dp == dr == d && ((p == p0 && r == q0) || (p == q0 && r == p0)))
    || (p == r0 && dp == d + 1 && dq == dr == d && ((q == p0 && r == q0) || (q == q0 && r == p0)))
  }

  /** The parts of a split, the largest first: the three exchanges that order them. */
  method OrderParts(p0: Frame, q0: Frame, r0: Frame, d: int)
    returns (p: Frame, q: Frame, r: Frame, dp: int, dq: int, dr: int)
    ensures p.hi - p.lo >= q.hi - q.lo >= r.hi - r.lo && Depths(p0, q0, r0, d, p, q, r, dp, dq, dr)
  {
    p, q, r, dp, dq, dr := p0, q0, r0, d, d, d + 1;
    if p.hi - p.lo < q.hi - q.lo { p, q, dp, dq := q, p, dq, dp; }
    if q.hi - q.lo < r.hi - r.lo { q, r, dq, dr := r, q, dr, dq; }
    if p.hi - p.lo < q.hi - q.lo { p, q, dp, dq := q, p, dq, dp; }
  }

  /** A split of the top frame keeps the sort going, with less to do. */
  lemma SplitKeeps(b: seq<byte>, f0: seq<int>, f: seq<int>, g: seq<int>, rest: seq<Frame>, ds: seq<int>, x: Frame, d: int,
                   med: int, n: int, m: int, p: Frame, q: Frame, r: Frame, dp: int, dq: int, dr: int,
                   lo: int, hi: int, depth: nat)
    requires |b| > N_OVERSHOOT && Sorting(b, f0, f, rest + [x], ds + [d], lo, hi, depth) && |rest| == |ds|
    requires 2 <= d <= 14 && x.lo < x.hi && InRange(f, Rank(b), x.lo, x.hi + 1)
    requires Shuffled(f, g, Byte(b, d), x.lo, x.hi + 1) && Split3(g, Byte(b, d), med, x.lo, n, m, x.hi) && n + 1 < m
    requires Depths(Frame(x.lo, n), Frame(m, x.hi), Frame(n + 1, m - 1), d, p, q, r, dp, dq, dr)
    requires p.hi - p.lo >= q.hi - q.lo >= r.hi - r.lo
    ensures Sorting(b, f0, g, rest + [p, q, r], ds + [dp, dq, dr], lo, hi, depth)
    ensures Effort(rest + [p, q, r], ds + [dp, dq, dr]) < Effort(rest + [x], ds + [d])
  {
    hide Rank, Cmp, Byte, Effort, Lg, StackOk, OrderedExcept, Rearranged, LowEnough, FramesAgree, Depths, FrameAgrees,
      Within, Disjoint, Split3, Agree, Size;
    PopLow(rest, x, lo, hi, depth);
    TopAgrees(b, f, rest, ds, x, d);
    FrontAgrees(b, f, rest, ds, x, d);
    OthersAgree(b, f, g, rest, ds, x, lo, hi);
    PartFacts(b, f, g, x, d, med, n, m, p, q, r, dp, dq, dr);
    PushThree(rest, x, p, q, r, lo, hi, depth);
    EffortThree(rest, ds, x, d, p, q, r, dp, dq, dr);
    ThreeMore(b, g, rest, ds, p, q, r, dp, dq, dr);
    SettleTop(f, g, Rank(b), rest, x, [p, q, r], lo, hi);
    ThenRearranged(f0, f, g, lo, hi + 1);
  }

  /** The three parts of a split: inside the frame, apart, in order with one another, each agreeing to its depth. */
  lemma PartFacts(b: seq<byte>, f: seq<int>, g: seq<int>, x: Frame, d: int, med: int, n: int, m: int,
                  p: Frame, q: Frame, r: Frame, dp: int, dq: int, dr: int)
    requires |b| > N_OVERSHOOT && 2 <= d <= 14 && x.lo < x.hi && FrameAgrees(b, f, x, d)
    requires Shuffled(f, g, Byte(b, d), x.lo, x.hi + 1) && Split3(g, Byte(b, d), med, x.lo, n, m, x.hi) && n + 1 < m
    requires Depths(Frame(x.lo, n), Frame(m, x.hi), Frame(n + 1, m - 1), d, p, q, r, dp, dq, dr)
    requires p.hi - p.lo >= q.hi - q.lo >= r.hi - r.lo
    ensures Within(p, x) && Within(q, x) && Within(r, x) && Disjoint(p, q) && Disjoint(q, r) && Disjoint(p, r)
    ensures Size(p) >= Size(q) >= Size(r) && Size(p) + Size(q) + Size(r) == Size(x) > 0
    ensures d <= dp <= d + 1 && d <= dq <= d + 1 && d <= dr <= d + 1
    ensures (dp == d + 1 && Size(p) > 0) || (dq == d + 1 && Size(q) > 0) || (dr == d + 1 && Size(r) > 0)
    ensures FrameAgrees(b, g, p, dp) && FrameAgrees(b, g, q, dq) && FrameAgrees(b, g, r, dr)
    ensures Shuffled(f, g, Rank(b), x.lo, x.hi + 1)
    ensures forall s, t :: x.lo <= s < t <= x.hi ==> Rank(b)[g[s]] <= Rank(b)[g[t]] || Pending([p, q, r], s, t)
  {
    hide Rank, Cmp, Byte, Rearranged, Pending, Depths, FrameAgrees, Agree, InRange, Within, Disjoint, Size;
    FrameToAgree(b, f, x, d);
    AgreeShuffled(b, f, g, x.lo, x.hi, d);
    AgreeInRange(b, g, x.lo, x.hi, d);
    ThreeAgree(b, g, x, d, med, n, m);
    PartAgrees(b, g, x, d, n, m, p, q, r, dp, dq, dr);
    PartShapes(x, d, n, m, p, q, r, dp, dq, dr);
    PartsInOrder(b, g, x, d, med, n, m, [p, q, r]);
  }

  lemma FrameToAgree(b: seq<byte>, f: seq<int>, x: Frame, d: int)
    requires FrameAgrees(b, f, x, d)
    ensures Agree(b, f, x.lo, x.hi, d) && x.lo >= 0 && x.hi < |f|
  {
  }

  lemma PartAgrees(b: seq<byte>, g: seq<int>, x: Frame, d: int, n: int, m: int,
                   p: Frame, q: Frame, r: Frame, dp: int, dq: int, dr: int)
    requires FrameAgrees(b, g, Frame(x.lo, n), d) && FrameAgrees(b, g, Frame(m, x.hi), d)
    requires FrameAgrees(b, g, Frame(n + 1, m - 1), d + 1)
    requires Depths(Frame(x.lo, n), Frame(m, x.hi), Frame(n + 1, m - 1), d, p, q, r, dp, dq, dr)
    ensures FrameAgrees(b, g, p, dp) && FrameAgrees(b, g, q, dq) && FrameAgrees(b, g, r, dr)
    ensures Frame(x.lo, n) in [p, q, r] && Frame(m, x.hi) in [p, q, r] && Frame(n + 1, m - 1) in [p, q, r]
  {
    hide FrameAgrees;
  }

  lemma PartShapes(x: Frame, d: int, n: int, m: int, p: Frame, q: Frame, r: Frame, dp: int, dq: int, dr: int)
    requires x.lo < x.hi && x.lo <= n + 1 < m <= x.hi + 1 && p.hi - p.lo >= q.hi - q.lo >= r.hi - r.lo
    requires Depths(Frame(x.lo, n), Frame(m, x.hi), Frame(n + 1, m - 1), d, p, q, r, dp, dq, dr)
    ensures Within(p, x) && Within(q, x) && Within(r, x) && Disjoint(p, q) && Disjoint(q, r) && Disjoint(p, r)
    ensures Size(p) >= Size(q) >= Size(r) && Size(p) + Size(q) + Size(r) == Size(x) > 0
    ensures d <= dp <= d + 1 && d <= dq <= d + 1 && d <= dr <= d + 1
    ensures (dp == d + 1 && Size(p) > 0) || (dq == d + 1 && Size(q) > 0) || (dr == d + 1 && Size(r) > 0)
  {
  }

  lemma TopAgrees(b: seq<byte>, f: seq<int>, rest: seq<Frame>, ds: seq<int>, x: Frame, d: int)
    requires FramesAgree(b, f, rest + [x], ds + [d]) && |rest| == |ds|
    ensures FrameAgrees(b, f, x, d)
  {
    assert FrameAgrees(b, f, (rest + [x])[|rest|], (ds + [d])[|rest|]);
  }

  lemma FrontAgrees(b: seq<byte>, f: seq<int>, rest: seq<Frame>, ds: seq<int>, x: Frame, d: int)
    requires FramesAgree(b, f, rest + [x], ds + [d]) && |rest| == |ds|
    ensures FramesAgree(b, f, rest, ds)
  {
    forall i | 0 <= i < |rest| ensures FrameAgrees(b, f, rest[i], ds[i]) {
      assert FrameAgrees(b, f, (rest + [x])[i], (ds + [d])[i]);
    }
  }

  lemma ThreeMore(b: seq<byte>, f: seq<int>, rest: seq<Frame>, ds: seq<int>, p: Frame, q: Frame, r: Frame,
                  dp: int, dq: int, dr: int)
    requires FramesAgree(b, f, rest, ds) && FrameAgrees(b, f, p, dp) && FrameAgrees(b, f, q, dq) && FrameAgrees(b, f, r, dr)
    ensures FramesAgree(b, f, rest + [p, q, r], ds + [dp, dq, dr])
  {
    hide FrameAgrees;
    var st, es := rest + [p, q, r], ds + [dp, dq, dr];
    forall i | 0 <= i < |st| ensures FrameAgrees(b, f, st[i], es[i]) {
      assert i < |rest| ==> st[i] == rest[i] && es[i] == ds[i];
    }
  }

  lemma ThreeAgree(b: seq<byte>, g: seq<int>, x: Frame, d: nat, med: int, n: int, m: int)
    requires 2 <= d <= 14 && |b| > N_OVERSHOOT && Agree(b, g, x.lo, x.hi, d) && InRange(g, Byte(b, d), x.lo, x.hi + 1)
    requires Split3(g, Byte(b, d), med, x.lo, n, m, x.hi)
    ensures FrameAgrees(b, g, Frame(x.lo, n), d) && FrameAgrees(b, g, Frame(m, x.hi), d)
    ensures FrameAgrees(b, g, Frame(n + 1, m - 1), d + 1)
  {
    hide Cmp, Byte;
    AgreePart(b, g, x.lo, x.hi, d, x.lo, n);
    AgreePart(b, g, x.lo, x.hi, d, m, x.hi);
    AgreePart(b, g, x.lo, x.hi, d, n + 1, m - 1);
    AgreeDeeper(b, g, n + 1, m - 1, d, med);
  }

  /** When the whole frame has the same byte, it only gets deeper. */
  lemma AllDeeper(b: seq<byte>, f0: seq<int>, f: seq<int>, g: seq<int>, rest: seq<Frame>, ds: seq<int>, x: Frame, d: int,
                  med: int, lo: int, hi: int, depth: nat)
    requires |b| > N_OVERSHOOT && Sorting(b, f0, f, rest + [x], ds + [d], lo, hi, depth) && |rest| == |ds|
    requires 2 <= d <= 14 && 0 <= x.lo < x.hi < |f| && Shuffled(f, g, Byte(b, d), x.lo, x.hi + 1)
    requires forall t :: x.lo <= t <= x.hi ==> Byte(b, d)[g[t]] == med
    ensures Sorting(b, f0, g, rest + [x], ds + [d + 1], lo, hi, depth)
    ensures Effort(rest + [x], ds + [d + 1]) < Effort(rest + [x], ds + [d])
  {
    hide Rank, Cmp, Byte, Effort, Lg, StackOk, OrderedExcept, Rearranged, LowEnough, FramesAgree, InRange, Agree;
    SameSize(b, f0, f, rest + [x], ds + [d], lo, hi, depth);
    PopLow(rest, x, lo, hi, depth);
    TopAgrees(b, f, rest, ds, x, d);
    FrontAgrees(b, f, rest, ds, x, d);
    OthersAgree(b, f, g, rest, ds, x, lo, hi);
    AgreeShuffled(b, f, g, x.lo, x.hi, d);
    AgreeInRange(b, g, x.lo, x.hi, d);
    AgreeDeeper(b, g, x.lo, x.hi, d, med);
    OneMore(b, g, rest, ds, x, d + 1);
    PendingSelf(x);
    SettleTop(f, g, Rank(b), rest, x, [x], lo, hi);
    ThenRearranged(f0, f, g, lo, hi + 1);
    EffortPush(rest, ds, x, d);
    EffortPush(rest, ds, x, d + 1);
    EffortLess(16 - d, Size(x), 15 - d);
  }

  lemma SameSize(b: seq<byte>, f0: seq<int>, f: seq<int>, st: seq<Frame>, ds: seq<int>, lo: int, hi: int, depth: nat)
    requires Sorting(b, f0, f, st, ds, lo, hi, depth)
    ensures |f| == |f0| && 0 <= lo <= hi < |f|
  {
  }

  lemma OneMore(b: seq<byte>, f: seq<int>, rest: seq<Frame>, ds: seq<int>, x: Frame, d: int)
    requires FramesAgree(b, f, rest, ds) && FrameAgrees(b, f, x, d)
    ensures FramesAgree(b, f, rest + [x], ds + [d])
  {
    hide FrameAgrees;
    forall i | 0 <= i < |rest + [x]| ensures FrameAgrees(b, f, (rest + [x])[i], (ds + [d])[i]) {
      assert i < |rest| ==> (rest + [x])[i] == rest[i] && (ds + [d])[i] == ds[i];
    }
  }

  lemma PendingSelf(x: Frame)
    ensures forall s, t :: x.lo <= s < t <= x.hi ==> Pending([x], s, t)
  {
    forall s, t | x.lo <= s < t <= x.hi ensures Pending([x], s, t) {
      InMore([x], x, s, t);
    }
  }

  /** A frame that has been sorted is done with. */
  lemma TopSorted(b: seq<byte>, f0: seq<int>, f: seq<int>, g: seq<int>, rest: seq<Frame>, ds: seq<int>, x: Frame, d: int,
                  lo: int, hi: int, depth: nat)
    requires Sorting(b, f0, f, rest + [x], ds + [d], lo, hi, depth) && |rest| == |ds|
    requires 0 <= x.lo <= x.hi + 1 <= |f| && Rearranged(f, g, x.lo, x.hi + 1) && SortedByOrder(b, g, x.lo, x.hi + 1)
    ensures Sorting(b, f0, g, rest, ds, lo, hi, depth) && Effort(rest, ds) < Effort(rest + [x], ds + [d])
  {
    hide Rank, Cmp, Effort, Lg, StackOk, OrderedExcept, Rearranged, LowEnough, FramesAgree;
    PopLow(rest, x, lo, hi, depth);
    TopAgrees(b, f, rest, ds, x, d);
    FrontAgrees(b, f, rest, ds, x, d);
    OthersAgree(b, f, g, rest, ds, x, lo, hi);
    SettleTop(f, g, Rank(b), rest, x, [], lo, hi);
    assert rest + [] == rest;
    RearrangedWiden(f, g, x.lo, x.hi + 1, lo, hi + 1);
    ThenRearranged(f0, f, g, lo, hi + 1);
    EffortPush(rest, ds, x, d);
    EffortPositive(16 - d, Size(x));
  }

  lemma EffortPositive(e: int, s: nat)
    requires e >= 0
    ensures 3 * e * s >= 0
  {
  }

  /** One turn of mainQSort3: the top frame is sorted, or split in three, or found to be of one byte. */
  method Turn(ptr: array<int>, block: array<int>, quadrant: array<int>, nblock: nat, rest: seq<Frame>, ds0: seq<int>,
              x: Frame, d: int, budget0: int, ghost b: seq<byte>, ghost f0: seq<int>, ghost lo: int, ghost hi: int,
              ghost depth: nat)
    returns (stack: seq<Frame>, ds: seq<int>, budget: int)
    requires ptr != block && ptr != quadrant && nblock == |b| <= 900_000 && Setting(block[..], quadrant[..], b)
    requires ptr.Length == |f0| && hi < nblock && |rest| == |ds0|
    requires Sorting(b, f0, ptr[..], rest + [x], ds0 + [d], lo, hi, depth)
    modifies ptr
    ensures Rearranged(f0, ptr[..], lo, hi + 1) && budget <= budget0 && |stack| == |ds|
    ensures budget >= 0 || (x.hi - x.lo >= QSORT_SMALL_THRESH && d <= QSORT_DEPTH_THRESH) ==>
              Sorting(b, f0, ptr[..], stack, ds, lo, hi, depth) && Effort(stack, ds) < Effort(rest + [x], ds0 + [d])
  {
    hide Rank, Cmp, Byte, Effort, Lg, StackOk, OrderedExcept, Rearranged, LowEnough, FramesAgree, Setting, InRange, Agree,
      SortedByOrder, Split3, Overshot, Cached, Keys;
    ghost var f := ptr[..];
    stack, ds, budget := rest, ds0, budget0;
    PopLow(rest, x, lo, hi, depth);
    TopAgrees(b, f, rest, ds0, x, d);
    if x.hi - x.lo < QSORT_SMALL_THRESH || d > QSORT_DEPTH_THRESH {
      budget := SimpleSort(ptr, block, quadrant, nblock, x.lo, x.hi, d, budget, b);
      FrameWiden(f0, f, ptr[..], x, lo, hi);
      if budget >= 0 { TopSorted(b, f0, f, ptr[..], rest, ds0, x, d, lo, hi, depth); }
      return;
    }
    ghost var w;
    var med;
    SettingParts(block[..], quadrant[..], b, d);
    med, w := Median(ptr, block, x, d, b);
    AgreeKeys(b, f, x.lo, x.hi, d);
    assert f[w] == ptr[w];
    var allEqual, n, m := PartitionAround(ptr, block, d, Byte(b, d), med, x.lo, x.hi);
    if allEqual {
      AllDeeper(b, f0, f, ptr[..], rest, ds0, x, d, med, lo, hi, depth);
      stack, ds := rest + [x], ds0 + [d + 1];
    } else {
      MiddleThere(b, f, ptr[..], x, d, med, n, m, w);
      var p, q, r, dp, dq, dr := OrderParts(Frame(x.lo, n), Frame(m, x.hi), Frame(n + 1, m - 1), d);
      AgreeInRange(b, f, x.lo, x.hi, d);
      SplitKeeps(b, f0, f, ptr[..], rest, ds0, x, d, med, n, m, p, q, r, dp, dq, dr, lo, hi, depth);
      stack, ds := rest + [p, q, r], ds0 + [dp, dq, dr];
    }
  }

  lemma SettingParts(block: seq<int>, quadrant: seq<int>, b: seq<byte>, d: nat)
    requires Setting(block, quadrant, b) && d <= N_OVERSHOOT
    ensures Overshot(block, b) && |b| > N_OVERSHOOT && Keys(block, d, Byte(b, d))
  {
    BlockKeys(block, b, d);
  }

  lemma AgreeKeys(b: seq<byte>, f: seq<int>, lo: int, hi: int, d: nat)
    requires 0 <= lo <= hi + 1 <= |f| && Agree(b, f, lo, hi, d) && d <= |b|
    ensures InRange(f, Byte(b, d), lo, hi + 1)
  {
    hide Byte;
  }

  lemma FrameWiden(f0: seq<int>, f: seq<int>, g: seq<int>, x: Frame, lo: int, hi: int)
    requires 0 <= lo <= x.lo <= x.hi + 1 <= hi + 1 <= |f0| && Rearranged(f0, f, lo, hi + 1)
    requires |f| == |f0| && Rearranged(f, g, x.lo, x.hi + 1)
    ensures Rearranged(f0, g, lo, hi + 1)
  {
    RearrangedWiden(f, g, x.lo, x.hi + 1, lo, hi + 1);
    RearrangedTrans(f0, f, g, lo, hi + 1);
  }

  /** mainQSort3: if the budget lasts, the stretch ends up in order. The stack never fills. */
  method QSort3(ptr: array<int>, block: array<int>, quadrant: array<int>, nblock: nat, loSt: int, hiSt: int, dSt: nat,
                budget0: int, ghost b: seq<byte>) returns (budget: int)
    requires ptr != block && ptr != quadrant && nblock == |b| <= 900_000 && Setting(block[..], quadrant[..], b)
    requires 0 <= loSt <= hiSt < nblock <= ptr.Length && dSt == 2 && Agree(b, ptr[..], loSt, hiSt, dSt)
    modifies ptr
    ensures Rearranged(old(ptr[..]), ptr[..], loSt, hiSt + 1) && budget <= budget0
    ensures budget >= 0 ==> SortedByOrder(b, ptr[..], loSt, hiSt + 1)
  {
    hide Rank, Cmp, Effort, Lg, StackOk, Rearranged, LowEnough, FramesAgree, Setting, InRange, Agree, Sorting, SortedByOrder;
    ghost var f0 := ptr[..];
    var stack, ds := [Frame(loSt, hiSt)], [dSt as int];
    budget := budget0;
    SortingStart(b, f0, loSt, hiSt, dSt);
    while stack != []
      invariant Setting(block[..], quadrant[..], b) && |stack| == |ds| && budget <= budget0
      invariant Sorting(b, f0, ptr[..], stack, ds, loSt, hiSt, 41)
      invariant Rearranged(f0, ptr[..], loSt, hiSt + 1)
      decreases Effort(stack, ds)
    {
      SortingShape(b, f0, ptr[..], stack, ds, loSt, hiSt, 41);
      assert |stack| < QSORT_STACK_SIZE - 2;
      var k := |stack| - 1;
      var rest, x, ds1, d := stack[..k], stack[k], ds[..k], ds[k];
      assert stack == rest + [x] && ds == ds1 + [d];
      stack, ds, budget := Turn(ptr, block, quadrant, nblock, rest, ds1, x, d, budget, b, f0, loSt, hiSt, 41);
      if budget < 0 && (x.hi - x.lo < QSORT_SMALL_THRESH || d > QSORT_DEPTH_THRESH) { return; }
    }
    SortingEnd(b, f0, ptr[..], loSt, hiSt, 41);
  }

  lemma SortingStart(b: seq<byte>, f: seq<int>, lo: int, hi: int, d: int)
    requires 0 <= lo <= hi < |b| <= 900_000 && hi < |f| && d == 2 && Agree(b, f, lo, hi, d)
    ensures Sorting(b, f, f, [Frame(lo, hi)], [d], lo, hi, 41) && Rearranged(f, f, lo, hi + 1)
  {
    hide Rank, Cmp, Lg;
    AgreeInRange(b, f, lo, hi, d);
    RearrangedRefl(f, lo, hi + 1);
    Pow2Add(10, 10);
    assert Pow2(10) == 1024;
    LgUnder(hi - lo + 1, 20);
    PendingSelf(Frame(lo, hi));
    assert FrameAgrees(b, f, [Frame(lo, hi)][0], [d][0]);
  }

  lemma SortingShape(b: seq<byte>, f0: seq<int>, f: seq<int>, st: seq<Frame>, ds: seq<int>, lo: int, hi: int, depth: nat)
    requires Sorting(b, f0, f, st, ds, lo, hi, depth) && st != []
    ensures |st| <= depth && Effort(st, ds) >= 0
  {
    var k := |st| - 1;
    assert k + 2 * Lg(Size(st[k])) + 1 <= depth;
    forall i | 0 <= i < |ds| ensures ds[i] <= 15 { assert FrameAgrees(b, f, st[i], ds[i]); }
    EffortNat(st, ds);
  }

  lemma SortingEnd(b: seq<byte>, f0: seq<int>, f: seq<int>, lo: int, hi: int, depth: nat)
    requires Sorting(b, f0, f, [], [], lo, hi, depth)
    ensures SortedByOrder(b, f, lo, hi + 1)
  {
    hide Rank;
  }
}
