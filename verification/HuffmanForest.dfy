/** The trees BZ2_hbMakeCodeLengths grows: parent links, packed weights, and why they are shallow and complete. */
module HuffmanForest {
  import opened Bits

  /** BZ_MAX_ALPHA_SIZE: the end mark and up to 257 other symbols. */
  const MAX_ALPHA_SIZE := 258

  function Fib(k: nat): (r: nat)
  {
    if k < 2 then k else Fib(k - 1) + Fib(k - 2)
  }

  lemma {:induction false} FibMono(j: nat, k: nat)
    requires 1 <= j <= k
    ensures 1 <= Fib(j) <= Fib(k)
    decreases k
  {
    if j < k { FibMono(j, k - 1); if k >= 3 { FibMono(1, k - 2); } }
    else if k >= 3 { FibMono(1, k - 1); FibMono(1, k - 2); }
  }

  // ----- sums

  function Sum(s: seq<int>, k: nat): int
    requires k <= |s|
  {
    if k == 0 then 0 else Sum(s, k - 1) + s[k - 1]
  }

  lemma {:induction false} SumUpdate(s: seq<int>, i: nat, v: int, k: nat)
    requires i < |s| && k <= |s|
    ensures Sum(s[i := v], k) == Sum(s, k) + (if i < k then v - s[i] else 0)
    decreases k
  {
    if k > 0 { SumUpdate(s, i, v, k - 1); }
  }

  lemma {:induction false} SumSame(s: seq<int>, t: seq<int>, k: nat)
    requires k <= |s| && k <= |t| && forall i :: 0 <= i < k ==> s[i] == t[i]
    ensures Sum(s, k) == Sum(t, k)
  {
    if k > 0 { SumSame(s, t, k - 1); }
  }

  /** One entry of a sum of natural numbers is at most the sum. */
  lemma {:induction false} SumAtLeast(s: seq<int>, i: nat, k: nat)
    requires i < k <= |s| && forall j :: 0 <= j < k ==> s[j] >= 0
    ensures s[i] <= Sum(s, k) && 0 <= Sum(s, k - 1)
    decreases k
  {
    SumNat(s, k - 1);
    if i < k - 1 { SumAtLeast(s, i, k - 1); }
  }

  lemma {:induction false} SumNat(s: seq<int>, k: nat)
    requires k <= |s| && forall j :: 0 <= j < k ==> s[j] >= 0
    ensures Sum(s, k) >= 0
  {
    if k > 0 { SumNat(s, k - 1); }
  }

  // ----- the forest

  /** Nodes 1..|parent|-1, leaves first. A weight holds the node's count above and its height in the low 8 bits;
      left and right name an inner node's two children. */
  datatype Forest = Forest(n: nat, parent: seq<int>, weight: seq<int>, left: seq<int>, right: seq<int>)
  {
    function Nodes(): int { |parent| - 1 }
    predicate Node(x: int) { 1 <= x < |parent| }
    predicate Root(x: int) { 1 <= x < |parent| && parent[x] == -1 }
    function Count(x: int): int requires 0 <= x < |weight| { weight[x] / 256 }
    function Height(x: int): int requires 0 <= x < |weight| { weight[x] % 256 }
  }

  ghost predicate Linked(f: Forest, x: int)
    requires 0 <= x < |f.parent|
  {
    f.parent[x] == -1 || (f.n < f.parent[x] < |f.parent| && x < f.parent[x])
  }

  ghost predicate InnerOk(f: Forest, k: int)
    requires |f.weight| == |f.parent| == |f.left| == |f.right| && f.n < k < |f.parent|
  {
    var a, b := f.left[k], f.right[k];
    && 1 <= a < k && 1 <= b < k && a != b && f.parent[a] == k && f.parent[b] == k
    && (forall x :: 1 <= x < |f.parent| && f.parent[x] == k ==> x == a || x == b)
    && f.Height(k) == 1 + (if f.Height(a) > f.Height(b) then f.Height(a) else f.Height(b))
  }

  /** A node of height h counts for at least Fib(h + 2). */
  ghost predicate Grown(f: Forest, x: int)
    requires 0 <= x < |f.weight|
  {
    f.weight[x] >= 0 && f.Count(x) >= Fib(f.Height(x) + 2)
  }

  /** A node already merged weighs no more than any root. */
  ghost predicate Ordered(f: Forest, x: int, r: int)
    requires |f.weight| == |f.parent|
  {
    f.Node(x) && !f.Root(x) && f.Root(r) ==> f.weight[x] <= f.weight[r]
  }

  ghost predicate Good(f: Forest)
  {
    && 1 <= f.n < |f.parent| == |f.weight| == |f.left| == |f.right|
    && (forall x :: 1 <= x < |f.parent| ==> Linked(f, x))
    && (forall k :: f.n < k < |f.parent| ==> InnerOk(f, k))
    && (forall x :: 1 <= x < |f.parent| ==> Grown(f, x))
    && (forall x, r :: Ordered(f, x, r))
    && (forall x :: 1 <= x <= f.n ==> f.Height(x) == 0)
  }

  /** What the roots count for: entry x is root x's count, or 0. */
  function RootCounts(f: Forest): (s: seq<int>)
    requires |f.weight| == |f.parent|
    ensures |s| == |f.parent|
  {
    seq(|f.parent|, x requires 0 <= x < |f.parent| => if f.Root(x) then f.Count(x) else 0)
  }

  /** ADDWEIGHTS */
  function AddWeights(w1: int, w2: int): int
  {
    (w1 - w1 % 256) + (w2 - w2 % 256) + (1 + (if w1 % 256 > w2 % 256 then w1 % 256 else w2 % 256))
  }

  function Merge(f: Forest, n1: int, n2: int): Forest
    requires 1 <= n1 < |f.parent| && 1 <= n2 < |f.parent| && |f.weight| == |f.parent|
  {
    var k := |f.parent|;
    Forest(f.n, f.parent[n1 := k][n2 := k] + [-1], f.weight + [AddWeights(f.weight[n1], f.weight[n2])],
           f.left + [n1], f.right + [n2])
  }

  /** n1 and n2 are two lightest roots, n1 first. */
  ghost predicate Lightest(f: Forest, n1: int, n2: int)
    requires |f.weight| == |f.parent|
  {
    && f.Root(n1) && f.Root(n2) && n1 != n2 && f.weight[n1] <= f.weight[n2]
    && forall r :: f.Root(r) && r != n1 && r != n2 ==> f.weight[n2] <= f.weight[r]
  }

  lemma AddWeightsParts(w1: int, w2: int)
    requires 0 <= w1 && 0 <= w2 && w1 % 256 < 255 && w2 % 256 < 255
    ensures var w := AddWeights(w1, w2);
            && w / 256 == w1 / 256 + w2 / 256
            && w % 256 == 1 + (if w1 % 256 > w2 % 256 then w1 % 256 else w2 % 256)
            && w > w1 && w > w2
  {
    var h := 1 + (if w1 % 256 > w2 % 256 then w1 % 256 else w2 % 256);
    assert AddWeights(w1, w2) == 256 * (w1 / 256 + w2 / 256) + h;
  }

  lemma FibSum(hi: int, lo: int, h: nat, hlo: nat)
    requires hi >= Fib(h + 2) && lo >= Fib(hlo + 2) && (h > 0 ==> lo >= Fib(h + 1))
    ensures hi + lo >= Fib(h + 1 + 2)
  {
    FibMono(2, hlo + 2);
    assert Fib(h + 3) == Fib(h + 2) + Fib(h + 1);
    assert Fib(1) == 1;
  }

  /** Any root weighs at least what the children of any other root do. */
  lemma ChildOfRoot(f: Forest, hi: int, lo: int)
    requires Good(f) && f.Root(hi) && f.Root(lo) && f.Height(hi) > 0
    ensures f.Count(lo) >= Fib(f.Height(hi) + 1)
  {
    hide Fib;
    assert hi > f.n && InnerOk(f, hi);
    var c := if f.Height(f.left[hi]) > f.Height(f.right[hi]) then f.left[hi] else f.right[hi];
    assert Ordered(f, c, lo) && Grown(f, c);
  }

  /** A root's sibling-to-be weighs at least what its own children do, so counts grow at least as fast as Fibonacci
      numbers with height. */
  lemma MergeGrown(f: Forest, n1: int, n2: int)
    requires Good(f) && f.Root(n1) && f.Root(n2) && f.Height(n1) < 255 && f.Height(n2) < 255
    ensures Grown(Merge(f, n1, n2), |f.parent|)
  {
    hide Fib, InnerOk, Ordered, Linked;
    assert Grown(f, n1) && Grown(f, n2);
    AddWeightsParts(f.weight[n1], f.weight[n2]);
    if f.Height(n1) > f.Height(n2) {
      ChildOfRoot(f, n1, n2);
      FibSum(f.Count(n1), f.Count(n2), f.Height(n1), f.Height(n2));
    } else {
      if f.Height(n2) > 0 { ChildOfRoot(f, n2, n1); }
      FibSum(f.Count(n2), f.Count(n1), f.Height(n2), f.Height(n1));
    }
  }

  lemma MergeInner(f: Forest, n1: int, n2: int, k: int)
    requires Good(f) && f.Root(n1) && f.Root(n2) && n1 != n2 && f.n < k <= |f.parent|
    requires f.Height(n1) < 255 && f.Height(n2) < 255
    ensures InnerOk(Merge(f, n1, n2), k)
  {
    hide Fib, Ordered;
    assert Grown(f, n1) && Grown(f, n2);
    AddWeightsParts(f.weight[n1], f.weight[n2]);
    var g := Merge(f, n1, n2);
    if k < |f.parent| {
      assert InnerOk(f, k);
    } else {
      forall x | 1 <= x < |g.parent| && g.parent[x] == k ensures x == n1 || x == n2 {
        if x < |f.parent| { assert Linked(f, x); }
      }
    }
  }

  lemma MergeOrdered(f: Forest, n1: int, n2: int, x: int, r: int)
    requires Good(f) && Lightest(f, n1, n2) && f.Height(n1) < 255 && f.Height(n2) < 255
    ensures Ordered(Merge(f, n1, n2), x, r)
  {
    hide Fib, InnerOk, Linked;
    assert Grown(f, n1) && Grown(f, n2);
    AddWeightsParts(f.weight[n1], f.weight[n2]);
    assert Ordered(f, x, r) && Ordered(f, x, n1);
  }

  /** Merging the two lightest roots keeps the forest good, and what its roots count for in all. */
  lemma MergeGood(f: Forest, n1: int, n2: int)
    requires Good(f) && Lightest(f, n1, n2) && f.Height(n1) < 255 && f.Height(n2) < 255
    ensures Good(Merge(f, n1, n2))
    ensures Sum(RootCounts(Merge(f, n1, n2)), |f.parent| + 1) == Sum(RootCounts(f), |f.parent|)
  {
    hide Fib, InnerOk, Ordered;
    var g := Merge(f, n1, n2);
    forall k | f.n < k < |g.parent| ensures InnerOk(g, k) { MergeInner(f, n1, n2, k); }
    forall x, r ensures Ordered(g, x, r) { MergeOrdered(f, n1, n2, x, r); }
    forall x | 1 <= x < |g.parent| ensures Grown(g, x) {
      if x < |f.parent| { assert Grown(f, x); } else { MergeGrown(f, n1, n2); }
    }
    forall x | 1 <= x < |g.parent| ensures Linked(g, x) {
      if x < |f.parent| { assert Linked(f, x); }
    }
    forall x | 1 <= x <= g.n ensures g.Height(x) == 0 {
      assert g.weight[x] == f.weight[x] && f.Height(x) == 0;
    }
    MergeCounts(f, n1, n2);
  }

  lemma MergeCounts(f: Forest, n1: int, n2: int)
    requires Good(f) && f.Root(n1) && f.Root(n2) && n1 != n2 && f.Height(n1) < 255 && f.Height(n2) < 255
    ensures Sum(RootCounts(Merge(f, n1, n2)), |f.parent| + 1) == Sum(RootCounts(f), |f.parent|)
  {
    hide Fib, InnerOk, Ordered, Linked;
    var g, k := Merge(f, n1, n2), |f.parent|;
    assert Grown(f, n1) && Grown(f, n2);
    AddWeightsParts(f.weight[n1], f.weight[n2]);
    var s, t := RootCounts(f), RootCounts(g);
    var u := s[n1 := 0][n2 := 0];
    SumUpdate(s, n1, 0, k);
    SumUpdate(s[n1 := 0], n2, 0, k);
    SumSame(u, t, k);
  }

  // ----- depth

  ghost predicate WellParented(p: seq<int>)
  {
    forall x :: 1 <= x < |p| ==> p[x] == -1 || x < p[x] < |p|
  }

  /** How far node x is below its root: what the code counts as the length of a leaf's code. */
  function Depth(p: seq<int>, x: int): nat
    requires WellParented(p) && 1 <= x < |p|
    decreases |p| - x
  {
    if p[x] == -1 then 0 else 1 + Depth(p, p[x])
  }

  function Top(p: seq<int>, x: int): (r: int)
    requires WellParented(p) && 1 <= x < |p|
    ensures 1 <= r < |p| && p[r] == -1
    decreases |p| - x
  {
    if p[x] == -1 then x else Top(p, p[x])
  }

  /** No node is deeper below its root than the root is high. */
  lemma {:induction false} DepthAtMostHeight(f: Forest, x: int)
    requires Good(f) && WellParented(f.parent) && f.Node(x)
    ensures Depth(f.parent, x) + f.Height(x) <= f.Height(Top(f.parent, x))
    decreases |f.parent| - x
  {
    hide Fib, Ordered, Grown;
    if f.parent[x] != -1 {
      assert Linked(f, x) && InnerOk(f, f.parent[x]);
      DepthAtMostHeight(f, f.parent[x]);
    }
  }

  lemma GoodParents(f: Forest)
    requires Good(f)
    ensures WellParented(f.parent)
  {
    hide Fib, Ordered, Grown, InnerOk;
    forall x | 1 <= x < |f.parent| ensures f.parent[x] == -1 || x < f.parent[x] < |f.parent| {
      assert Linked(f, x);
    }
  }

  // ----- how high a tree of a given count can be

  /** The numbers from a and b on, the n-th of them. */
  function Climb(n: nat, a: nat, b: nat): nat
  {
    if n == 0 then a else Climb(n - 1, b, a + b)
  }

  lemma {:induction false} Climbs(n: nat, k: nat)
    ensures Climb(n, Fib(k), Fib(k + 1)) == Fib(n + k)
  {
    if n > 0 {
      assert Fib(k + 2) == Fib(k + 1) + Fib(k);
      Climbs(n - 1, k + 1);
    }
  }

  lemma FibClimb(n: nat)
    ensures Fib(n) == Climb(n, 0, 1)
  {
    Climbs(n, 0);
  }

  lemma ClimbFive(n: nat, a: nat, b: nat)
    ensures Climb(n + 5, a, b) == Climb(n, 3 * a + 5 * b, 5 * a + 8 * b)
  {
    assert Climb(n + 3, b + a, a + 2 * b) == Climb(n + 1, 2 * a + 3 * b, 3 * a + 5 * b);
  }

  lemma Fib20()
    ensures Fib(20) == 6765
  {
    hide Fib;
    FibClimb(20);
    ClimbFive(15, 0, 1);
    ClimbFive(10, 5, 8);
    ClimbFive(5, 55, 89);
    ClimbFive(0, 610, 987);
  }

  lemma Fib35()
    ensures Fib(35) == 9227465
  {
    hide Fib;
    FibClimb(35);
    ClimbFive(30, 0, 1);
    ClimbFive(25, 5, 8);
    ClimbFive(20, 55, 89);
    ClimbFive(15, 610, 987);
    ClimbFive(10, 6765, 10946);
    ClimbFive(5, 75025, 121393);
    ClimbFive(0, 832040, 1346269);
  }

  /** A root counts for no more than all roots together. */
  lemma RootCount(f: Forest, r: int)
    requires Good(f) && f.Root(r)
    ensures f.Count(r) <= Sum(RootCounts(f), |f.parent|)
  {
    hide Fib, Ordered, InnerOk, Linked;
    var s := RootCounts(f);
    forall j | 0 <= j < |s| ensures s[j] >= 0 {
      if f.Root(j) { assert Grown(f, j); }
    }
    SumAtLeast(s, r, |s|);
  }

  /** Less than Fib(k + 2) in all: no tree as high as k. */
  lemma HeightBound(f: Forest, r: int, k: nat)
    requires Good(f) && f.Root(r) && Sum(RootCounts(f), |f.parent|) < Fib(k + 2)
    ensures f.Height(r) < k
  {
    RootCount(f, r);
    assert Grown(f, r);
    if f.Height(r) >= k { FibMono(k + 2, f.Height(r) + 2); }
  }

  // ----- completeness

  /** Cutting the tree above node k: what the nodes just below the cut add to the Kraft sum, in units of 2^-m. */
  function Frontier(p: seq<int>, k: int, m: nat): (s: seq<int>)
    requires WellParented(p)
    ensures |s| == |p|
  {
    seq(|p|, x requires 0 <= x < |p| =>
      if 1 <= x <= k && (p[x] == -1 || p[x] > k) && Depth(p, x) <= m then Pow2(m - Depth(p, x)) else 0)
  }

  /** Opening node k replaces it by its two children, a level further down. */
  lemma OpenNode(f: Forest, k: int, m: nat)
    requires Good(f) && WellParented(f.parent) && f.n < k < |f.parent|
    requires f.parent[k] == -1 || f.parent[k] > k
    requires Depth(f.parent, k) < m
    ensures Sum(Frontier(f.parent, k - 1, m), |f.parent|) == Sum(Frontier(f.parent, k, m), |f.parent|)
  {
    hide Fib, Ordered, Grown;
    var p, a, b := f.parent, f.left[k], f.right[k];
    assert InnerOk(f, k);
    var d := Depth(p, k);
    assert Depth(p, a) == d + 1 && Depth(p, b) == d + 1;
    assert Pow2(m - d) == 2 * Pow2(m - d - 1);
    var s, t := Frontier(p, k, m), Frontier(p, k - 1, m);
    var v := Pow2(m - d - 1);
    var u := s[k := 0][a := v][b := v];
    SumUpdate(s, k, 0, |p|);
    SumUpdate(s[k := 0], a, v, |p|);
    SumUpdate(s[k := 0][a := v], b, v, |p|);
    forall x | 0 <= x < |p| ensures u[x] == t[x] {
      if x != k && x != a && x != b && 1 <= x { assert p[x] != k; }
    }
    SumSame(u, t, |p|);
  }

  lemma {:induction false} OpenAll(f: Forest, k: int, m: nat)
    requires Good(f) && WellParented(f.parent) && f.n <= k < |f.parent|
    requires forall x :: 1 <= x < |f.parent| - 1 ==> f.parent[x] != -1
    requires f.parent[|f.parent| - 1] == -1
    requires forall x :: 1 <= x <= f.n ==> Depth(f.parent, x) <= m
    ensures Sum(Frontier(f.parent, k, m), |f.parent|) == Pow2(m)
    decreases |f.parent| - k
  {
    hide Fib, Ordered, Grown, InnerOk;
    var p, r := f.parent, |f.parent| - 1;
    if k == r {
      var s := Frontier(p, r, m);
      var z := seq(|p|, x => 0);
      forall x | 0 <= x < |p| ensures s[x] == z[r := Pow2(m)][x] {
        if 1 <= x < r { assert Linked(f, x); }
      }
      SumSame(s, z[r := Pow2(m)], |p|);
      SumUpdate(z, r, Pow2(m), |p|);
      SumZero(z, |p|);
    } else {
      OpenAll(f, k + 1, m);
      assert Linked(f, k + 1);
      InnerShallower(f, k + 1, m);
      OpenNode(f, k + 1, m);
    }
  }

  lemma SumZero(z: seq<int>, k: nat)
    requires k <= |z| && forall x :: 0 <= x < |z| ==> z[x] == 0
    ensures Sum(z, k) == 0
  {
  }

  /** Below every inner node there is a leaf, so inner nodes are less deep than the deepest leaf. */
  lemma {:induction false} InnerShallower(f: Forest, k: int, m: nat)
    requires Good(f) && WellParented(f.parent) && f.n < k < |f.parent|
    requires forall x :: 1 <= x <= f.n ==> Depth(f.parent, x) <= m
    ensures Depth(f.parent, k) < m
    decreases k
  {
    hide Fib, Ordered, Grown;
    assert InnerOk(f, k);
    var a := f.left[k];
    assert Depth(f.parent, a) == 1 + Depth(f.parent, k);
    if a > f.n { InnerShallower(f, a, m); }
  }

  /** The Kraft sum of code lengths, in units of 2^-m. */
  function Kraft(len: seq<int>, m: nat, k: nat): int
    requires k <= |len|
  {
    if k == 0 then 0
    else Kraft(len, m, k - 1) + (if 0 <= len[k - 1] <= m then Pow2(m - len[k - 1]) else 0)
  }

  /** Each symbol's length is the depth of its leaf, and none is longer than m. */
  ghost predicate Measures(f: Forest, len: seq<int>, m: nat)
    requires WellParented(f.parent)
  {
    f.n <= |len| && f.n < |f.parent| && forall i :: 0 <= i < f.n ==> len[i] == Depth(f.parent, i + 1) <= m
  }

  lemma {:induction false} FrontierIsKraft(f: Forest, len: seq<int>, m: nat, k: nat)
    requires Good(f) && WellParented(f.parent) && |len| == f.n && k <= f.n
    requires forall x :: 1 <= x <= f.n ==> f.parent[x] != -1
    requires Measures(f, len, m)
    ensures Sum(Frontier(f.parent, f.n, m), k + 1) == Kraft(len, m, k)
  {
    hide Fib, Ordered, Grown, InnerOk, Depth, Measures;
    if k > 0 {
      FrontierIsKraft(f, len, m, k - 1);
      assert Linked(f, k);
      MeasuredAt(f, len, m, k - 1);
    }
  }

  lemma MeasuredAt(f: Forest, len: seq<int>, m: nat, i: nat)
    requires WellParented(f.parent) && Measures(f, len, m) && i < f.n
    ensures len[i] == Depth(f.parent, i + 1) <= m
  {
    hide Depth;
  }

  lemma {:induction false} FrontierEnds(f: Forest, m: nat, k: nat)
    requires Good(f) && WellParented(f.parent) && f.n < k <= |f.parent|
    ensures Sum(Frontier(f.parent, f.n, m), k) == Sum(Frontier(f.parent, f.n, m), f.n + 1)
  {
    if k > f.n + 1 { FrontierEnds(f, m, k - 1); }
  }

  /** The leaf depths of a finished tree form a complete code. */
  lemma CompleteCode(f: Forest, len: seq<int>, m: nat)
    requires Good(f) && WellParented(f.parent) && |len| == f.n && |f.parent| > f.n + 1
    requires forall x :: 1 <= x < |f.parent| - 1 ==> f.parent[x] != -1
    requires f.parent[|f.parent| - 1] == -1
    requires Measures(f, len, m)
    ensures Kraft(len, m, f.n) == Pow2(m)
  {
    hide Good, Depth;
    forall x | 1 <= x <= f.n ensures Depth(f.parent, x) <= m { MeasuredAt(f, len, m, x - 1); }
    OpenAll(f, f.n, m);
    FrontierEnds(f, m, |f.parent|);
    FrontierIsKraft(f, len, m, f.n);
  }
}
