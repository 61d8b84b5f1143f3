/** Why the lengths read off the tree are the best there are: no lengths that fit the code space have a smaller sum of count
    times length. */
module HuffmanOptimal {
  import opened Bits
  import opened HuffmanForest

  /** What the symbols take up in all, each as often as its count says. */
  function Cost(c: seq<int>, len: seq<int>, k: nat): int
    requires k <= |c| && k <= |len|
  {
    if k == 0 then 0 else Cost(c, len, k - 1) + c[k - 1] * len[k - 1]
  }

  /** Lengths of codes of which none begins another: they fit the code space. */
  ghost predicate FitLengths(len: seq<int>, m: nat)
  {
    (forall i :: 0 <= i < |len| ==> 0 <= len[i] <= m) && Kraft(len, m, |len|) <= Pow2(m)
  }

  /** No lengths that fit are better for these counts. */
  ghost predicate Best(c: seq<int>, len: seq<int>)
  {
    |len| == |c| && forall l: seq<int>, m: nat :: |l| == |c| && FitLengths(l, m) ==> NoWorse(c, len, l)
  }

  ghost predicate NoWorse(c: seq<int>, len: seq<int>, l: seq<int>)
    requires |len| == |l| == |c|
  {
    Cost(c, len, |c|) <= Cost(c, l, |c|)
  }

  // ----- lengths for the roots of a forest

  function SpaceAt(f: Forest, l: seq<nat>, m: nat, x: int): int
    requires |l| == |f.parent| && 0 <= x < |l|
  {
    if f.Root(x) && l[x] <= m then Pow2(m - l[x]) else 0
  }

  function CostAt(f: Forest, l: seq<nat>, x: int): int
    requires |l| == |f.parent| == |f.weight| && 0 <= x < |l|
  {
    if f.Root(x) then f.Count(x) * l[x] else 0
  }

  /** The code space that the roots' lengths take up, in units of 2^-m; entry x is root x's. */
  function RootSpace(f: Forest, l: seq<nat>, m: nat): (s: seq<int>)
    requires |l| == |f.parent|
    ensures |s| == |l| && forall x :: 0 <= x < |s| ==> s[x] == SpaceAt(f, l, m, x)
  {
    seq(|l|, x requires 0 <= x < |l| => SpaceAt(f, l, m, x))
  }

  function RootCost(f: Forest, l: seq<nat>): (s: seq<int>)
    requires |l| == |f.parent| == |f.weight|
    ensures |s| == |l| && forall x :: 0 <= x < |s| ==> s[x] == CostAt(f, l, x)
  {
    seq(|l|, x requires 0 <= x < |l| => CostAt(f, l, x))
  }

  ghost predicate Fits(f: Forest, l: seq<nat>, m: nat)
  {
    && |l| == |f.parent| == |f.weight| && (forall x :: f.Root(x) ==> l[x] <= m && f.Count(x) >= 0)
    && Sum(RootSpace(f, l, m), |l|) <= Pow2(m)
  }

  /** t fits too, and is no worse. */
  ghost predicate Improves(f: Forest, l: seq<nat>, t: seq<nat>, m: nat)
  {
    Fits(f, l, m) && Fits(f, t, m) && Sum(RootCost(f, t), |t|) <= Sum(RootCost(f, l), |l|)
  }

  lemma ImprovesMore(f: Forest, l: seq<nat>, t: seq<nat>, u: seq<nat>, m: nat)
    requires Improves(f, l, t, m) && Improves(f, t, u, m)
    ensures Improves(f, l, u, m)
  {
    hide Fits, RootCost, Sum;
  }

  /** A root whose length is greatest. */
  lemma DeepestRoot(f: Forest, l: seq<nat>, r: int) returns (a: int)
    requires |l| == |f.parent| && f.Root(r)
    ensures f.Root(a) && forall x :: f.Root(x) ==> l[x] <= l[a]
  {
    a := r;
    for i := 0 to |l|
      invariant f.Root(a) && forall x :: f.Root(x) && x < i ==> l[x] <= l[a]
    {
      if f.Root(i) && l[i] > l[a] { a := i; }
    }
  }

  /** One length changed. */
  lemma ChangeLength(f: Forest, l: seq<nat>, m: nat, x: int, v: nat)
    requires |l| == |f.parent| == |f.weight| && f.Root(x) && l[x] <= m && v <= m
    ensures Sum(RootSpace(f, l[x := v], m), |l|) == Sum(RootSpace(f, l, m), |l|) + Pow2(m - v) - Pow2(m - l[x])
    ensures Sum(RootCost(f, l[x := v]), |l|) == Sum(RootCost(f, l), |l|) + f.Count(x) * v - f.Count(x) * l[x]
  {
    hide Pow2, Sum, RootSpace, RootCost;
    var t := l[x := v];
    var s, c := RootSpace(f, l, m), RootCost(f, l);
    SumUpdate(s, x, Pow2(m - v), |l|);
    SumUpdate(c, x, f.Count(x) * v, |l|);
    SumSame(RootSpace(f, t, m), s[x := Pow2(m - v)], |l|);
    SumSame(RootCost(f, t), c[x := f.Count(x) * v], |l|);
  }

  /** Sums of multiples. */
  lemma {:induction false} SumMultiple(s: seq<int>, q: nat, k: nat) returns (n: int)
    requires k <= |s| && forall x :: 0 <= x < k ==> Multiple(s[x], q)
    ensures Sum(s, k) == q * n
  {
    if k == 0 {
      n := 0;
    } else {
      var a := SumMultiple(s, q, k - 1);
      assert Multiple(s[k - 1], q);
      var b :| s[k - 1] == q * b;
      n := a + b;
    }
  }

  ghost predicate Multiple(v: int, q: nat) { exists b :: v == q * b }

  /** A single deepest root can be taken up: the others leave an even number of places of its size. */
  lemma RoomAbove(f: Forest, l: seq<nat>, m: nat, a: int)
    requires Fits(f, l, m) && f.Root(a) && l[a] >= 1 && forall x :: f.Root(x) && x != a ==> l[x] < l[a]
    ensures Sum(RootSpace(f, l, m), |l|) + Pow2(m - l[a]) <= Pow2(m)
  {
    hide Pow2, Sum, RootSpace;
    var s, p := RootSpace(f, l, m), Pow2(m - l[a]);
    var u := s[a := 0];
    forall x | 0 <= x < |l| ensures Multiple(u[x], 2 * p) {
      if x != a && f.Root(x) {
        PowParts(m, l[a], l[x]);
        assert u[x] == (2 * p) * Pow2(l[a] - 1 - l[x]);
      } else {
        assert u[x] == (2 * p) * 0;
      }
    }
    SumUpdate(s, a, 0, |l|);
    var n := SumMultiple(u, 2 * p, |l|);
    PowParts(m, l[a], 0);
    EvenRoom(p, n, Pow2(l[a] - 1), Pow2(m));
  }

  lemma PowParts(m: nat, high: nat, low: nat)
    requires low < high <= m
    ensures Pow2(m - low) == (2 * Pow2(m - high)) * Pow2(high - 1 - low)
  {
    hide Pow2;
    Pow2Add(m - high + 1, high - 1 - low);
    Twice(m - high);
  }

  lemma Twice(k: nat)
    ensures Pow2(k + 1) == 2 * Pow2(k)
  {
  }

  lemma EvenRoom(p: nat, n: int, k: nat, all: nat)
    requires p > 0 && all == (2 * p) * k && (2 * p) * n + p <= all
    ensures (2 * p) * n + 2 * p <= all
  {
    if n < k { assert (2 * p) * (n + 1) <= (2 * p) * k; }
  }

  // ----- two deepest roots

  /** a and b are as deep as any root. */
  ghost predicate TwoDeepest(f: Forest, l: seq<nat>, a: int, b: int)
  {
    && |l| == |f.parent| && f.Root(a) && f.Root(b) && a != b && l[a] == l[b] >= 1
    && forall x :: f.Root(x) ==> l[x] <= l[a]
  }

  function LengthAt(f: Forest, l: seq<nat>, x: int): int
    requires |l| == |f.parent| && 0 <= x < |l|
  {
    if f.Root(x) then l[x] else 0
  }

  function RootLengths(f: Forest, l: seq<nat>): (s: seq<int>)
    requires |l| == |f.parent|
    ensures |s| == |l| && forall x :: 0 <= x < |s| ==> s[x] == LengthAt(f, l, x)
  {
    seq(|l|, x requires 0 <= x < |l| => LengthAt(f, l, x))
  }

  /** Lengths that fit two roots and more can be improved until two of them are deepest. */
  lemma Tighten(f: Forest, l: seq<nat>, m: nat, n1: int, n2: int) returns (t: seq<nat>, a: int, b: int)
    requires Fits(f, l, m) && f.Root(n1) && f.Root(n2) && n1 != n2
    ensures Improves(f, l, t, m) && TwoDeepest(f, t, a, b)
    decreases Sum(RootLengths(f, l), |l|)
  {
    hide Pow2, Sum, RootSpace, RootCost, RootLengths;
    a := DeepestRoot(f, l, n1);
    if b0 :| f.Root(b0) && b0 != a && l[b0] == l[a] {
      t, b := l, b0;
      TwoAtTop(f, l, m, a, b);
    } else {
      var o := if n1 == a then n2 else n1;
      assert l[o] < l[a];
      var u := l[a := l[a] - 1];
      TakeUp(f, l, m, a);
      LengthsNat(f, u);
      t, a, b := Tighten(f, u, m, n1, n2);
      ImprovesMore(f, l, u, t, m);
    }
  }

  /** Two roots do not both fit with length 0. */
  lemma TwoAtTop(f: Forest, l: seq<nat>, m: nat, a: int, b: int)
    requires Fits(f, l, m) && f.Root(a) && f.Root(b) && a != b && l[a] == l[b]
    ensures l[a] >= 1
  {
    hide Pow2, Sum, RootSpace;
    var s := RootSpace(f, l, m);
    var u := s[a := 0][b := 0];
    SumUpdate(s, a, 0, |l|);
    SumUpdate(s[a := 0], b, 0, |l|);
    SumNat(u, |l|);
  }

  lemma TakeUp(f: Forest, l: seq<nat>, m: nat, a: int)
    requires Fits(f, l, m) && f.Root(a) && l[a] >= 1 && forall x :: f.Root(x) && x != a ==> l[x] < l[a]
    ensures Improves(f, l, l[a := l[a] - 1], m)
    ensures Sum(RootLengths(f, l[a := l[a] - 1]), |l|) < Sum(RootLengths(f, l), |l|)
  {
    hide Pow2, Sum, RootSpace, RootCost, RootLengths;
    var v := l[a] - 1;
    ChangeLength(f, l, m, a, v);
    RoomAbove(f, l, m, a);
    Twice(m - l[a]);
    LessTimes(f.Count(a), v, l[a]);
    var s := RootLengths(f, l);
    SumUpdate(s, a, v, |l|);
    SumSame(RootLengths(f, l[a := v]), s[a := v], |l|);
  }

  lemma LessTimes(c: int, x: nat, y: nat)
    requires c >= 0 && x <= y
    ensures c * x <= c * y
  {
  }

  lemma LengthsNat(f: Forest, l: seq<nat>)
    requires |l| == |f.parent|
    ensures Sum(RootLengths(f, l), |l|) >= 0
  {
    hide Sum;
    SumNat(RootLengths(f, l), |l|);
  }

  /** The lighter of two roots may have the greater length. */
  lemma SwapLengths(f: Forest, l: seq<nat>, m: nat, x: int, y: int)
    requires Fits(f, l, m) && f.Root(x) && f.Root(y) && x != y && f.Count(x) <= f.Count(y) && l[x] <= l[y]
    ensures Improves(f, l, l[x := l[y]][y := l[x]], m)
  {
    hide Pow2, Sum, RootSpace, RootCost;
    ChangeLength(f, l, m, x, l[y]);
    ChangeLength(f, l[x := l[y]], m, y, l[x]);
    Rearrangement(f.Count(x), f.Count(y), l[x], l[y]);
  }

  lemma Rearrangement(c: int, d: int, x: int, y: int)
    requires c <= d && x <= y
    ensures c * y + d * x <= c * x + d * y
  {
    assert (d - c) * (y - x) >= 0;
  }

  lemma SwapDeepest(f: Forest, l: seq<nat>, m: nat, x: int, a: int, b: int) returns (t: seq<nat>)
    requires Fits(f, l, m) && TwoDeepest(f, l, a, b) && f.Root(x) && x != a && x != b && f.Count(x) <= f.Count(a)
    ensures Improves(f, l, t, m) && TwoDeepest(f, t, x, b)
  {
    hide Fits, Pow2, RootSpace, RootCost, Improves;
    t := l[x := l[a]][a := l[x]];
    SwapLengths(f, l, m, x, a);
  }

  /** So the two lightest roots can be the two deepest. */
  lemma LightestDeepest(f: Forest, l: seq<nat>, m: nat, n1: int, n2: int) returns (t: seq<nat>)
    requires Fits(f, l, m) && Lightest(f, n1, n2)
    ensures Improves(f, l, t, m) && TwoDeepest(f, t, n1, n2)
  {
    hide Fits, Pow2, Improves;
    var u, a, b := Tighten(f, l, m, n1, n2);
    if b == n1 || a == n2 { a, b := b, a; }
    ImprovedFits(f, l, u, m);
    var v := u;
    if a != n1 {
      v := SwapDeepest(f, u, m, n1, a, b);
      ImprovesMore(f, l, u, v, m);
    }
    ImprovedFits(f, l, v, m);
    t := v;
    if b != n2 {
      t := SwapDeepest(f, v, m, n2, b, n1);
      ImprovesMore(f, l, v, t, m);
    }
  }

  lemma ImprovedFits(f: Forest, l: seq<nat>, t: seq<nat>, m: nat)
    requires Improves(f, l, t, m)
    ensures Fits(f, t, m) && Fits(f, l, m)
  {
    hide Fits, Pow2;
  }

  // ----- merging

  /** The merged root can stand one level above the two. */
  lemma MergeLengths(f: Forest, l: seq<nat>, m: nat, n1: int, n2: int) returns (t: seq<nat>)
    requires Good(f) && Lightest(f, n1, n2) && f.Height(n1) < 255 && f.Height(n2) < 255
    requires Fits(f, l, m) && TwoDeepest(f, l, n1, n2)
    ensures var g, k := Merge(f, n1, n2), |f.parent|;
            Fits(g, t, m) && Sum(RootCost(g, t), |t|) + g.Count(k) == Sum(RootCost(f, l), |l|)
  {
    hide Pow2, Sum, RootSpace, RootCost, Good, InnerOk, Ordered, Linked, Fib;
    var g, k, d := Merge(f, n1, n2), |f.parent|, l[n1];
    t := l + [d - 1];
    GrownRoots(f, n1, n2);
    AddWeightsParts(f.weight[n1], f.weight[n2]);
    var s, c := RootSpace(f, l, m), RootCost(f, l);
    var s0, c0 := s[n1 := 0][n2 := 0], c[n1 := 0][n2 := 0];
    SumUpdate(s, n1, 0, k);
    SumUpdate(s[n1 := 0], n2, 0, k);
    SumUpdate(c, n1, 0, k);
    SumUpdate(c[n1 := 0], n2, 0, k);
    SumSnoc(s0, Pow2(m - (d - 1)), RootSpace(g, t, m));
    SumSnoc(c0, g.Count(k) * (d - 1), RootCost(g, t));
    Twice(m - d);
    OneLess(f.Count(n1), f.Count(n2), d);
  }

  lemma GrownRoots(f: Forest, n1: int, n2: int)
    requires Good(f) && f.Root(n1) && f.Root(n2)
    ensures f.weight[n1] >= 0 && f.weight[n2] >= 0
  {
    hide InnerOk, Ordered, Linked, Fib;
    assert Grown(f, n1) && Grown(f, n2);
  }

  lemma SumSnoc(s: seq<int>, v: int, t: seq<int>)
    requires |t| == |s| + 1 && t[|s|] == v && forall i :: 0 <= i < |s| ==> t[i] == s[i]
    ensures Sum(t, |t|) == Sum(s, |s|) + v
  {
    SumSame(s, t, |s|);
  }

  lemma OneLess(c: int, e: int, d: int)
    ensures (c + e) * (d - 1) + (c + e) == c * d + e * d
  {
  }

  // ----- what the inner nodes count for

  /** Each inner node counts for its two children. */
  ghost predicate Adds(f: Forest)
  {
    |f.weight| == |f.parent| == |f.left| == |f.right| && forall k :: f.n < k < |f.parent| ==> AddsAt(f, k)
  }

  ghost predicate AddsAt(f: Forest, k: int)
    requires |f.weight| == |f.parent| == |f.left| == |f.right|
  {
    0 <= k < |f.weight| && 0 <= f.left[k] < k && 0 <= f.right[k] < k && f.Count(k) == f.Count(f.left[k]) + f.Count(f.right[k])
  }

  /** The sum of all inner nodes' counts, up to node k. */
  function Inner(f: Forest, k: nat): int
    requires k < |f.weight|
  {
    if k <= f.n then 0 else Inner(f, k - 1) + f.Count(k)
  }

  lemma {:induction false} InnerSame(f: Forest, g: Forest, k: nat)
    requires f.n == g.n && k < |f.weight| <= |g.weight| && g.weight[..|f.weight|] == f.weight
    ensures Inner(f, k) == Inner(g, k)
  {
    if k > f.n {
      InnerSame(f, g, k - 1);
      assert g.weight[..|f.weight|][k] == g.weight[k];
    }
  }

  /** Whatever lengths fit the symbols, some lengths fit the roots that cost less, by what the inner nodes count for. */
  ghost predicate Cheaper(f: Forest, c: seq<int>, len: seq<int>, m: nat)
    requires |len| == |c|
  {
    exists t: seq<nat> :: Fits(f, t, m) && CostsLess(f, t, Cost(c, len, |c|))
  }

  ghost predicate CostsLess(f: Forest, t: seq<nat>, cost: int)
  {
    |t| == |f.parent| == |f.weight| && |t| > 0 && Sum(RootCost(f, t), |t|) + Inner(f, |t| - 1) <= cost
  }

  ghost predicate AllCheaper(f: Forest, c: seq<int>)
  {
    forall len: seq<int>, m: nat :: |len| == |c| && FitLengths(len, m) ==> Cheaper(f, c, len, m)
  }

  /** Two lightest roots have become one. */
  ghost predicate Merged(f: Forest, g: Forest)
  {
    Good(f) && exists n1, n2 :: Lightest(f, n1, n2) && f.Height(n1) < 255 && f.Height(n2) < 255 && g == Merge(f, n1, n2)
  }

  lemma MergeCheaper(f: Forest, g: Forest, c: seq<int>)
    requires Merged(f, g) && AllCheaper(f, c)
    ensures AllCheaper(g, c)
  {
    hide Fits, Cost, FitLengths, CostsLess;
    var n1, n2 :| Lightest(f, n1, n2) && f.Height(n1) < 255 && f.Height(n2) < 255 && g == Merge(f, n1, n2);
    EachCheaper(f, n1, n2, c);
  }

  lemma EachCheaper(f: Forest, n1: int, n2: int, c: seq<int>)
    requires Good(f) && Lightest(f, n1, n2) && f.Height(n1) < 255 && f.Height(n2) < 255 && AllCheaper(f, c)
    ensures AllCheaper(Merge(f, n1, n2), c)
  {
    hide Cheaper, FitLengths, InnerOk, Ordered, Linked, Grown, Fib;
    forall len: seq<int>, m: nat | |len| == |c| && FitLengths(len, m) ensures Cheaper(Merge(f, n1, n2), c, len, m) {
      assert Cheaper(f, c, len, m);
      CheaperStep(f, n1, n2, c, len, m);
    }
  }

  lemma CheaperStep(f: Forest, n1: int, n2: int, c: seq<int>, len: seq<int>, m: nat)
    requires Good(f) && Lightest(f, n1, n2) && f.Height(n1) < 255 && f.Height(n2) < 255 && |len| == |c| && Cheaper(f, c, len, m)
    ensures Cheaper(Merge(f, n1, n2), c, len, m)
  {
    hide Fits, Cost, RootCost, Sum, Good, Lightest;
    var cost := Cost(c, len, |c|);
    var l: seq<nat> :| Fits(f, l, m) && CostsLess(f, l, cost);
    var u := LightestDeepest(f, l, m, n1, n2);
    ImprovedFits(f, l, u, m);
    var t := MergeLengths(f, u, m, n1, n2);
    MergedInner(f, n1, n2);
    FitSizes(f, l, u, Merge(f, n1, n2), t, m);
    assert CostsLess(Merge(f, n1, n2), t, cost);
  }

  lemma FitSizes(f: Forest, l: seq<nat>, u: seq<nat>, g: Forest, t: seq<nat>, m: nat)
    requires Fits(f, l, m) && Fits(f, u, m) && Fits(g, t, m)
    ensures |l| == |u| == |f.parent| == |f.weight| && |t| == |g.parent| == |g.weight|
  {
  }

  lemma MergedInner(f: Forest, n1: int, n2: int)
    requires Good(f) && f.Root(n1) && f.Root(n2)
    ensures var g, k := Merge(f, n1, n2), |f.parent|;
            |f.weight| == k > 0 && |g.weight| == |g.parent| == k + 1 && Inner(g, k) == Inner(f, k - 1) + g.Count(k)
  {
    var g := Merge(f, n1, n2);
    assert g.weight[..|f.weight|] == f.weight;
    InnerSame(f, g, |f.parent| - 1);
  }

  lemma MergeAdds(f: Forest, g: Forest)
    requires Merged(f, g) && Adds(f)
    ensures Adds(g)
  {
    hide InnerOk, Ordered, Linked, Fib, AddWeights;
    var n1, n2 :| Lightest(f, n1, n2) && f.Height(n1) < 255 && f.Height(n2) < 255 && g == Merge(f, n1, n2);
    GrownRoots(f, n1, n2);
    AddWeightsParts(f.weight[n1], f.weight[n2]);
    forall k | g.n < k < |g.parent| ensures AddsAt(g, k) {
      if k < |f.parent| { assert AddsAt(f, k); }
    }
  }

  // ----- the lengths read off the tree

  function DepthCostAt(f: Forest, k: int, x: int): int
    requires WellParented(f.parent) && |f.weight| == |f.parent| && 0 <= x < |f.parent|
  {
    var p := f.parent;
    if 1 <= x <= k && (p[x] == -1 || p[x] > k) then f.Count(x) * Depth(p, x) else 0
  }

  /** Cutting the tree above node k: what the nodes just below the cut cost, each as deep as it is. */
  function DepthCost(f: Forest, k: int): (s: seq<int>)
    requires WellParented(f.parent) && |f.weight| == |f.parent|
    ensures |s| == |f.parent| && forall x :: 0 <= x < |s| ==> s[x] == DepthCostAt(f, k, x)
  {
    seq(|f.parent|, x requires 0 <= x < |f.parent| => DepthCostAt(f, k, x))
  }

  /** Opening node k puts what it counts for one level further down. */
  lemma OpenCost(f: Forest, k: int)
    requires Good(f) && Adds(f) && WellParented(f.parent) && f.n < k < |f.parent|
    ensures Sum(DepthCost(f, k - 1), |f.parent|) == Sum(DepthCost(f, k), |f.parent|) + f.Count(k)
  {
    hide Fib, Ordered, Grown, Sum, DepthCost;
    var p, a, b := f.parent, f.left[k], f.right[k];
    assert InnerOk(f, k) && AddsAt(f, k) && Linked(f, k);
    var d := Depth(p, k);
    assert Depth(p, a) == d + 1 && Depth(p, b) == d + 1;
    var s, t := DepthCost(f, k), DepthCost(f, k - 1);
    var u := s[k := 0][a := f.Count(a) * (d + 1)][b := f.Count(b) * (d + 1)];
    SumUpdate(s, k, 0, |p|);
    SumUpdate(s[k := 0], a, f.Count(a) * (d + 1), |p|);
    SumUpdate(s[k := 0][a := f.Count(a) * (d + 1)], b, f.Count(b) * (d + 1), |p|);
    forall x | 0 <= x < |p| ensures u[x] == t[x] {
      if x != k && x != a && x != b && 1 <= x { assert p[x] != k; }
    }
    SumSame(u, t, |p|);
    OneLess(f.Count(a), f.Count(b), d + 1);
    Spread(f.Count(a), f.Count(b), d);
  }

  lemma Spread(c: int, e: int, d: int)
    ensures (c + e) * d == c * d + e * d
  {
  }

  lemma {:induction false} OpenAllCosts(f: Forest, k: int)
    requires Good(f) && Adds(f) && WellParented(f.parent) && f.n <= k < |f.parent|
    requires forall x :: 1 <= x < |f.parent| - 1 ==> f.parent[x] != -1
    requires f.parent[|f.parent| - 1] == -1
    ensures Sum(DepthCost(f, k), |f.parent|) + Inner(f, k) == Inner(f, |f.parent| - 1)
    decreases |f.parent| - k
  {
    hide Fib, Ordered, Grown, InnerOk, Adds, DepthCost;
    var r := |f.parent| - 1;
    if k == r {
      var s := DepthCost(f, r);
      forall x | 0 <= x < |s| ensures s[x] == 0 {
        if 1 <= x < r { assert Linked(f, x); }
      }
      SumZero(s, |s|);
    } else {
      OpenAllCosts(f, k + 1);
      OpenCost(f, k + 1);
    }
  }

  /** Each symbol counts for its leaf. */
  ghost predicate Counted(f: Forest, c: seq<int>)
  {
    f.n == |c| && |c| < |f.weight| && forall i :: 0 <= i < |c| ==> f.Count(i + 1) == c[i]
  }

  lemma {:induction false} LeafCosts(f: Forest, c: seq<int>, len: seq<int>, m: nat, k: nat)
    requires Good(f) && WellParented(f.parent) && Counted(f, c) && |len| == |c| && k <= f.n && Measures(f, len, m)
    requires forall x :: 1 <= x <= f.n ==> f.parent[x] != -1
    ensures Sum(DepthCost(f, f.n), k + 1) == Cost(c, len, k)
  {
    hide Fib, Ordered, Grown, InnerOk, Depth, Measures, DepthCost;
    if k > 0 {
      LeafCosts(f, c, len, m, k - 1);
      assert Linked(f, k);
      MeasuredAt(f, len, m, k - 1);
      assert f.Count(k - 1 + 1) == c[k - 1];
    } else {
      assert Sum(DepthCost(f, f.n), 1) == Sum(DepthCost(f, f.n), 0) + DepthCost(f, f.n)[0];
    }
  }

  lemma {:induction false} DepthCostEnds(f: Forest, k: nat)
    requires Good(f) && WellParented(f.parent) && f.n < k <= |f.parent|
    ensures Sum(DepthCost(f, f.n), k) == Sum(DepthCost(f, f.n), f.n + 1)
  {
    hide Good, Depth;
    if k > f.n + 1 { DepthCostEnds(f, k - 1); }
  }

  /** The depths of the leaves are best. */
  lemma TreeBest(f: Forest, c: seq<int>, len: seq<int>, m: nat)
    requires Good(f) && Adds(f) && WellParented(f.parent) && Counted(f, c) && |len| == |c| && |f.parent| > f.n + 1
    requires forall x :: 1 <= x < |f.parent| - 1 ==> f.parent[x] != -1
    requires f.parent[|f.parent| - 1] == -1
    requires Measures(f, len, m) && AllCheaper(f, c)
    ensures Best(c, len)
  {
    hide Good, Adds, Depth, Cost, Sum, RootCost, DepthCost, FitLengths, Measures, Counted;
    SizesOf(f, c);
    OpenAllCosts(f, f.n);
    DepthCostEnds(f, |f.parent|);
    LeafCosts(f, c, len, m, f.n);
    forall l: seq<int>, e: nat | |l| == |c| && FitLengths(l, e) ensures NoWorse(c, len, l) {
      assert Cheaper(f, c, l, e);
      CheapestInner(f, c, l, e);
    }
  }

  lemma SizesOf(f: Forest, c: seq<int>)
    requires Counted(f, c) && Good(f)
    ensures f.n == |c| && |f.weight| == |f.parent| && Inner(f, f.n) == 0
  {
  }

  lemma CheapestInner(f: Forest, c: seq<int>, l: seq<int>, m: nat)
    requires |l| == |c| && Cheaper(f, c, l, m) && |f.weight| == |f.parent| > 0
    ensures Inner(f, |f.parent| - 1) <= Cost(c, l, |c|)
  {
    hide Cost, Sum;
    var t: seq<nat> :| Fits(f, t, m) && CostsLess(f, t, Cost(c, l, |c|));
    var s := RootCost(f, t);
    forall x | 0 <= x < |s| ensures s[x] >= 0 {
      if f.Root(x) { LessTimes(f.Count(x), 0, t[x]); }
    }
    SumNat(s, |t|);
  }
}
