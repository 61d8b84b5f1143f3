/** The order mainSort works towards, and mainGtU, which decides it: for rotations that are equal, either way round. */
module MainOrder {
  import opened Permutations
  import opened Rotations

  const N_OVERSHOOT := 34

  /** The rotations that come strictly before x, among the first k. */
  ghost function Before(b: seq<byte>, x: nat, k: nat): (r: set<int>)
    requires x < |b| && k <= |b|
    ensures forall y :: y in r <==> 0 <= y < k && Cmp(b, y, x, |b|) < 0
  {
    if k == 0 then {} else Before(b, x, k - 1) + (if Cmp(b, k - 1, x, |b|) < 0 then {k - 1} else {})
  }

  /** The rank of each rotation: how many come strictly before it. */
  ghost function Rank(b: seq<byte>): (r: seq<int>)
    ensures |r| == |b| && forall x :: 0 <= x < |b| ==> r[x] == |Before(b, x, |b|)|
  {
    seq(|b|, x requires 0 <= x < |b| => |Before(b, x, |b|)|)
  }

  /** Ranks order rotations as comparing them does. */
  lemma RankOrder(b: seq<byte>, x: nat, y: nat)
    requires x < |b| && y < |b|
    ensures Cmp(b, x, y, |b|) <= 0 <==> Rank(b)[x] <= Rank(b)[y]
  {
    if Cmp(b, x, y, |b|) <= 0 {
      RankMono(b, x, y);
    } else {
      CmpAnti(b, x, y, |b|);
      RankMono(b, y, x);
      var s, t := Before(b, y, |b|), Before(b, x, |b|);
      CmpRefl(b, y, |b|);
      assert y in t && y !in s;
      assert s <= t - {y} by {
        forall z | z in s ensures z in t { CmpTrans(b, z, y, x, |b|); }
      }
      SubsetCard(s, t - {y});
    }
  }

  lemma RankMono(b: seq<byte>, x: nat, y: nat)
    requires x < |b| && y < |b| && Cmp(b, x, y, |b|) <= 0
    ensures Rank(b)[x] <= Rank(b)[y]
  {
    var s, t := Before(b, x, |b|), Before(b, y, |b|);
    forall z | z in s ensures z in t {
      CmpTrans(b, z, x, y, |b|);
    }
    SubsetCard(s, t);
  }

  /** A smaller first byte comes first; with equal first bytes, the rest decides. */
  lemma RankStep(b: seq<byte>, x: nat, y: nat)
    requires x < |b| && y < |b|
    ensures b[x] < b[y] ==> Rank(b)[x] < Rank(b)[y]
    ensures b[x] == b[y] ==>
              (Rank(b)[x] <= Rank(b)[y] <==> Rank(b)[Next(|b|, x)] <= Rank(b)[Next(|b|, y)])
  {
    hide Rank;
    var n := |b|;
    RankOrder(b, x, y);
    RankOrder(b, y, x);
    if b[x] == b[y] {
      RankOrder(b, Next(n, x), Next(n, y));
      TailDecides(b, x, y);
    }
  }

  /** Comparing the rotations one byte on, all round the block, comes to the same when the first bytes are equal. */
  lemma TailDecides(b: seq<byte>, x: nat, y: nat)
    requires x < |b| && y < |b| && b[x] == b[y]
    ensures Cmp(b, x, y, |b|) == Cmp(b, Next(|b|, x), Next(|b|, y), |b|)
  {
    var n := |b|;
    assert Cmp(b, x, y, n + 1) == Cmp(b, Next(n, x), Next(n, y), n);
    LongCompare(b, x, y);
  }

  lemma LongCompare(b: seq<byte>, x: nat, y: nat)
    requires x < |b| && y < |b|
    ensures Cmp(b, x, y, |b| + 1) == Cmp(b, x, y, |b|)
  {
    CmpSplit(b, x, y, |b|, 1);
    if Cmp(b, x, y, |b|) == 0 {
      AdvanceAll(b, x);
      AdvanceAll(b, y);
      CmpFirst(b, x, y);
    }
  }

  lemma AdvanceAll(b: seq<byte>, x: nat)
    requires x < |b|
    ensures Advance(|b|, x, |b|) == x
  {
    AdvanceClosed(|b|, x, |b|);
  }

  lemma CmpFirst(b: seq<byte>, x: nat, y: nat)
    requires x < |b| && y < |b| && Cmp(b, x, y, |b|) == 0
    ensures Cmp(b, x, y, 1) == 0
  {
    CmpPrefix(b, x, y, 1, |b|);
  }

  // ----- looking past the end of the block

  /** The rotation that begins at position p of the block and the overshoot after it. */
  function Wrap(n: nat, p: nat): (r: nat)
    requires p < 2 * n
    ensures r < n
  {
    if p < n then p else p - n
  }

  lemma WrapNext(n: nat, p: nat)
    requires p + 1 < 2 * n
    ensures Wrap(n, p + 1) == Next(n, Wrap(n, p))
  {
  }

  /** The block is followed by a copy of its beginning. */
  ghost predicate Overshot(block: seq<int>, b: seq<byte>)
  {
    && |b| > N_OVERSHOOT && |block| == |b| + N_OVERSHOOT
    && forall p :: 0 <= p < |block| ==> block[p] == b[Wrap(|b|, p)]
  }

  /** A cached order that is right as far as it goes: for equal rotations it may say either. */
  ghost predicate Cached(b: seq<byte>, quadrant: seq<int>)
  {
    && |b| > N_OVERSHOOT && |quadrant| == |b| + N_OVERSHOOT
    && (forall p :: |b| <= p < |quadrant| ==> quadrant[p] == quadrant[p - |b|])
    && forall x, y :: 0 <= x < |b| && 0 <= y < |b| ==> CachedPair(b, quadrant, x, y)
  }

  ghost predicate CachedPair(b: seq<byte>, quadrant: seq<int>, x: int, y: int)
  {
    0 <= x < |b| <= |quadrant| && 0 <= y < |b| && (b[x] == b[y] && quadrant[x] < quadrant[y] ==> Rank(b)[x] <= Rank(b)[y])
  }

  /** Deciding rotations x and y comes to deciding x' and y'. */
  ghost predicate SameQuestion(b: seq<byte>, x: int, y: int, x': int, y': int)
  {
    && 0 <= x < |b| && 0 <= y < |b| && 0 <= x' < |b| && 0 <= y' < |b|
    && (Rank(b)[x] <= Rank(b)[y] <==> Rank(b)[x'] <= Rank(b)[y'])
    && (Rank(b)[y] <= Rank(b)[x] <==> Rank(b)[y'] <= Rank(b)[x'])
  }

  /** An answer of the comparison. */
  ghost predicate Answers(b: seq<byte>, x: int, y: int, greater: bool)
  {
    0 <= x < |b| && 0 <= y < |b| && if greater then Rank(b)[y] <= Rank(b)[x] else Rank(b)[x] <= Rank(b)[y]
  }

  /** Equal bytes at p and q: on to the next positions. */
  lemma QuestionOn(b: seq<byte>, x: nat, y: nat, p: nat, q: nat, t: nat)
    requires x < |b| && y < |b| && p + 1 < 2 * |b| && q + 1 < 2 * |b|
    requires SameQuestion(b, x, y, Wrap(|b|, p), Wrap(|b|, q)) && b[Wrap(|b|, p)] == b[Wrap(|b|, q)]
    requires Cmp(b, x, y, t) == 0 && Advance(|b|, x, t) == Wrap(|b|, p) && Advance(|b|, y, t) == Wrap(|b|, q)
    ensures SameQuestion(b, x, y, Wrap(|b|, p + 1), Wrap(|b|, q + 1)) && Cmp(b, x, y, t + 1) == 0
    ensures Advance(|b|, x, t + 1) == Wrap(|b|, p + 1) && Advance(|b|, y, t + 1) == Wrap(|b|, q + 1)
  {
    hide Rank;
    var n := |b|;
    WrapNext(n, p);
    WrapNext(n, q);
    RankStep(b, Wrap(n, p), Wrap(n, q));
    RankStep(b, Wrap(n, q), Wrap(n, p));
    AdvanceStep(n, x, t);
    AdvanceStep(n, y, t);
    CmpSplit(b, x, y, t, 1);
    assert Cmp(b, Wrap(n, p), Wrap(n, q), 1) == 0;
  }

  lemma BytesAnswer(b: seq<byte>, x: nat, y: nat, p: nat, q: nat)
    requires x < |b| && y < |b| && p < 2 * |b| && q < 2 * |b|
    requires SameQuestion(b, x, y, Wrap(|b|, p), Wrap(|b|, q)) && b[Wrap(|b|, p)] != b[Wrap(|b|, q)]
    ensures Answers(b, x, y, b[Wrap(|b|, p)] > b[Wrap(|b|, q)])
  {
    hide Rank;
    RankStep(b, Wrap(|b|, p), Wrap(|b|, q));
    RankStep(b, Wrap(|b|, q), Wrap(|b|, p));
  }

  lemma CacheAnswers(b: seq<byte>, quadrant: seq<int>, x: nat, y: nat, p: nat, q: nat)
    requires Cached(b, quadrant) && x < |b| && y < |b| && p < |quadrant| && q < |quadrant|
    requires SameQuestion(b, x, y, Wrap(|b|, p), Wrap(|b|, q)) && b[Wrap(|b|, p)] == b[Wrap(|b|, q)]
    requires quadrant[p] != quadrant[q]
    ensures Answers(b, x, y, quadrant[p] > quadrant[q])
  {
    hide Rank;
    assert CachedPair(b, quadrant, Wrap(|b|, p), Wrap(|b|, q)) && CachedPair(b, quadrant, Wrap(|b|, q), Wrap(|b|, p));
  }

  /** Rotations that agree for as long as the block have the same rank. */
  lemma AllEqual(b: seq<byte>, x: nat, y: nat, t: nat)
    requires x < |b| && y < |b| && Cmp(b, x, y, t) == 0 && t >= |b|
    ensures Answers(b, x, y, false)
  {
    hide Rank;
    CmpPrefix(b, x, y, |b|, t);
    RankOrder(b, x, y);
  }

  /** Where a comparison stands after t equal bytes, at positions p and q. */
  ghost predicate Comparing(b: seq<byte>, x: int, y: int, p: int, q: int, t: nat)
  {
    && 0 <= x < |b| && 0 <= y < |b| && 0 <= p < 2 * |b| && 0 <= q < 2 * |b|
    && SameQuestion(b, x, y, Wrap(|b|, p), Wrap(|b|, q)) && Cmp(b, x, y, t) == 0
    && Advance(|b|, x, t) == Wrap(|b|, p) && Advance(|b|, y, t) == Wrap(|b|, q)
  }

  /** Bytes, then bytes and cached order, from positions i1 and i2: up to count of them. */
  method Steps(i1: nat, i2: nat, block: array<int>, quadrant: array<int>, useQuadrant: bool, count: nat,
               ghost b: seq<byte>, ghost x: nat, ghost y: nat, ghost t: nat)
    returns (decided: bool, greater: bool)
    requires Overshot(block[..], b) && Cached(b, quadrant[..])
    requires i1 + count <= block.Length && i2 + count <= block.Length && Comparing(b, x, y, i1, i2, t)
    ensures decided ==> Answers(b, x, y, greater)
    ensures !decided ==> Comparing(b, x, y, i1 + count, i2 + count, t + count)
  {
    hide Rank, SameQuestion, Answers, CachedPair, Cmp, Advance;
    var k := 0;
    while k < count
      invariant 0 <= k <= count && Comparing(b, x, y, i1 + k, i2 + k, t + k)
    {
      var p, q := i1 + k, i2 + k;
      var c1, c2 := block[p], block[q];
      assert block[..][p] == b[Wrap(|b|, p)] && block[..][q] == b[Wrap(|b|, q)];
      if c1 != c2 {
        BytesAnswer(b, x, y, p, q);
        return true, c1 > c2;
      }
      if useQuadrant {
        var s1, s2 := quadrant[p], quadrant[q];
        if s1 != s2 {
          CacheAnswers(b, quadrant[..], x, y, p, q);
          return true, s1 > s2;
        }
      }
      QuestionOn(b, x, y, p, q, t + k);
      k := k + 1;
    }
    decided, greater := false, false;
  }

  /** mainGtU, whose unrolled steps are a loop here: the bytes read lie in the block and its overshoot, and the answer
      is right, though for equal rotations either answer may come. */
  method GtU(i10: nat, i20: nat, block: array<int>, quadrant: array<int>, nblock: nat, budget0: int, ghost b: seq<byte>)
    returns (greater: bool, budget: int)
    requires nblock == |b| && Overshot(block[..], b) && Cached(b, quadrant[..])
    requires i10 < nblock + 15 && i20 < nblock + 15
    ensures Answers(b, Wrap(nblock, i10), Wrap(nblock, i20), greater) && budget <= budget0
  {
    hide Rank, SameQuestion, Answers, Cmp, Advance, CachedPair;
    ghost var x, y := Wrap(nblock, i10), Wrap(nblock, i20);
    budget := budget0;
    var i1, i2 := i10, i20;
    StartComparing(b, i1, i2);
    var decided;
    decided, greater := Steps(i1, i2, block, quadrant, false, 12, b, x, y, 0);
    if decided { return; }
    i1, i2 := i1 + 12, i2 + 12;
    ghost var t := 12;
    var k: int := nblock + 8;
    while true
      invariant i1 + 8 <= nblock + N_OVERSHOOT && i2 + 8 <= nblock + N_OVERSHOOT && budget <= budget0
      invariant Comparing(b, x, y, i1, i2, t) && t + k == nblock + 20 && k >= 0
      decreases k
    {
      decided, greater := Steps(i1, i2, block, quadrant, true, 8, b, x, y, t);
      if decided { return; }
      i1, i2, t := i1 + 8, i2 + 8, t + 8;
      if i1 >= nblock { i1 := i1 - nblock; }
      if i2 >= nblock { i2 := i2 - nblock; }
      k := k - 8;
      budget := budget - 1;
      if k < 0 { break; }
    }
    AllEqual(b, x, y, t);
    greater := false;
  }

  lemma StartComparing(b: seq<byte>, i1: nat, i2: nat)
    requires i1 < 2 * |b| && i2 < 2 * |b|
    ensures Comparing(b, Wrap(|b|, i1), Wrap(|b|, i2), i1, i2, 0)
  {
  }

  /** A list in order of rank is sorted. */
  lemma RankedIsSorted(b: seq<byte>, f: seq<int>)
    requires |f| == |b| && (forall i :: 0 <= i < |f| ==> 0 <= f[i] < |b|)
    requires forall i, j :: 0 <= i < j < |f| ==> Rank(b)[f[i]] <= Rank(b)[f[j]]
    ensures SortedBy(b, f, |b|)
  {
    forall i, j | 0 <= i < j < |f| ensures Cmp(b, f[i], f[j], |b|) <= 0 {
      RankOrder(b, f[i], f[j]);
    }
  }
}
