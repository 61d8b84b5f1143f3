/** BZ2_hbMakeCodeLengths: Huffman code lengths of at most 17 bits, by rescaling the frequencies until they fit. */
module HuffmanLengths {
  import opened Bits
  import opened Permutations
  import opened HuffmanForest
  import opened HuffmanOptimal

  // ----- the heap of roots

  ghost predicate ParentLeq(h: seq<int>, w: seq<int>, i: int)
  {
    && 2 <= i < |h| && 0 <= h[i] < |w| && 0 <= h[i / 2] < |w|
    && w[h[i / 2]] <= w[h[i]]
  }

  ghost predicate Indexes(h: seq<int>, w: seq<int>, n: int)
  {
    0 <= n < |h| && forall i :: 0 <= i <= n ==> 0 <= h[i] < |w|
  }

  /** Entries 1..n form a heap, except that entry z may be lighter than its parent. */
  ghost predicate HeapButUp(h: seq<int>, w: seq<int>, n: int, z: int)
  {
    && Indexes(h, w, n)
    && (forall i :: 2 <= i <= n && i != z ==> ParentLeq(h, w, i))
    && (forall i :: 2 <= i <= n && i / 2 == z && z >= 2 ==> GrandLeq(h, w, i, z))
  }

  ghost predicate GrandLeq(h: seq<int>, w: seq<int>, i: int, z: int)
  {
    2 <= i < |h| && 2 <= z < |h| && 0 <= h[i] < |w| && 0 <= h[z / 2] < |w| && w[h[z / 2]] <= w[h[i]]
  }

  ghost predicate Heap(h: seq<int>, w: seq<int>, n: int)
  {
    Indexes(h, w, n) && forall i :: 2 <= i <= n ==> ParentLeq(h, w, i)
  }

  /** UPHEAP(z): carried up past heavier ancestors; the sentinel at 0, of weight 0, stops it. */
  function UpHeaped(h: seq<int>, w: seq<int>, z: nat): (r: seq<int>)
    requires z < |h|
    ensures |r| == |h|
    decreases z
  {
    if z > 0 && 0 <= h[z] < |w| && 0 <= h[z / 2] < |w| && w[h[z]] < w[h[z / 2]]
    then UpHeaped(Swap(h, z, z / 2), w, z / 2) else h
  }

  lemma {:induction false} UpHeapedOk(h: seq<int>, w: seq<int>, n: nat, z: nat)
    requires 1 <= z <= n < |h| && HeapButUp(h, w, n, z) && h[0] == 0 && |w| > 0 && w[0] == 0
    requires forall i :: 1 <= i <= n ==> w[h[i]] > 0
    ensures Heap(UpHeaped(h, w, z), w, n)
    ensures Rearranged(h, UpHeaped(h, w, z), 1, n + 1)
    decreases z
  {
    if w[h[z]] < w[h[z / 2]] {
      var s := Swap(h, z, z / 2);
      assert z / 2 >= 1;
      SwapRearranges(h, z, z / 2, 1, n + 1);
      UpSwap(h, w, n, z);
      forall i | 1 <= i <= n ensures w[s[i]] > 0 {}
      UpHeapedOk(s, w, n, z / 2);
      RearrangedTrans(h, s, UpHeaped(s, w, z / 2), 1, n + 1);
    } else {
      forall i | 2 <= i <= n ensures ParentLeq(h, w, i) {}
    }
  }

  lemma UpSwap(h: seq<int>, w: seq<int>, n: nat, z: nat)
    requires 2 <= z <= n < |h| && HeapButUp(h, w, n, z) && w[h[z]] < w[h[z / 2]]
    ensures HeapButUp(Swap(h, z, z / 2), w, n, z / 2)
  {
    var s, y := Swap(h, z, z / 2), z / 2;
    assert 1 <= y < z;
    forall i | 2 <= i <= n && i != y ensures ParentLeq(s, w, i) {
      if i == z {
      } else {
        assert ParentLeq(h, w, i);
        if i / 2 == z { assert GrandLeq(h, w, i, z); }
      }
    }
    forall i | 2 <= i <= n && i / 2 == y && y >= 2 ensures GrandLeq(s, w, i, y) {
      assert ParentLeq(h, w, y);
      if i != z { assert ParentLeq(h, w, i); }
    }
  }

  /** Entries 1..n form a heap, except that entry z may be heavier than its children. */
  ghost predicate HeapButDown(h: seq<int>, w: seq<int>, n: int, z: int)
  {
    && Indexes(h, w, n)
    && (forall i :: 2 <= i <= n && i / 2 != z ==> ParentLeq(h, w, i))
    && (forall i :: 2 <= i <= n && i / 2 == z && z >= 2 ==> GrandLeq(h, w, i, z))
  }

  /** The child of z that DOWNHEAP compares with: the lighter, the left one on a tie. */
  function LighterChild(h: seq<int>, w: seq<int>, n: nat, z: nat): (y: nat)
    requires n < |h| && 1 <= z && 2 * z <= n
    ensures (y == 2 * z || y == 2 * z + 1) && y <= n
  {
    if 2 * z < n && 0 <= h[2 * z] < |w| && 0 <= h[2 * z + 1] < |w| && w[h[2 * z + 1]] < w[h[2 * z]]
    then 2 * z + 1 else 2 * z
  }

  /** DOWNHEAP(z): carried down past children that are not heavier. */
  function DownHeaped(h: seq<int>, w: seq<int>, n: nat, z: nat): (r: seq<int>)
    requires n < |h| && 1 <= z
    ensures |r| == |h|
    decreases n + 1 - z
  {
    if 2 * z > n then h
    else var y := LighterChild(h, w, n, z);
         if 0 <= h[z] < |w| && 0 <= h[y] < |w| && w[h[z]] < w[h[y]] then h
         else DownHeaped(Swap(h, z, y), w, n, y)
  }

  lemma {:induction false} DownHeapedOk(h: seq<int>, w: seq<int>, n: nat, z: nat)
    requires n < |h| && 1 <= z <= n && HeapButDown(h, w, n, z)
    ensures Heap(DownHeaped(h, w, n, z), w, n)
    ensures Rearranged(h, DownHeaped(h, w, n, z), 1, n + 1)
    decreases n + 1 - z
  {
    if 2 * z > n {
      forall i | 2 <= i <= n ensures ParentLeq(h, w, i) {}
    } else {
      var y := LighterChild(h, w, n, z);
      if w[h[z]] < w[h[y]] {
        forall i | 2 <= i <= n ensures ParentLeq(h, w, i) {
          if i / 2 == z { assert i == 2 * z || i == 2 * z + 1; }
        }
      } else {
        var s := Swap(h, z, y);
        SwapRearranges(h, z, y, 1, n + 1);
        DownSwap(h, w, n, z);
        DownHeapedOk(s, w, n, y);
        RearrangedTrans(h, s, DownHeaped(s, w, n, y), 1, n + 1);
      }
    }
  }

  lemma DownSwap(h: seq<int>, w: seq<int>, n: nat, z: nat)
    requires n < |h| && 1 <= z && 2 * z <= n && HeapButDown(h, w, n, z)
    requires w[h[LighterChild(h, w, n, z)]] <= w[h[z]]
    ensures HeapButDown(Swap(h, z, LighterChild(h, w, n, z)), w, n, LighterChild(h, w, n, z))
  {
    var y := LighterChild(h, w, n, z);
    var s := Swap(h, z, y);
    forall i | 2 <= i <= n && i / 2 != y ensures ParentLeq(s, w, i) {
      if i / 2 == z {
        assert i == 2 * z || i == 2 * z + 1;
      } else {
        assert ParentLeq(h, w, i);
        if i == z { assert GrandLeq(h, w, y, z); }
      }
    }
    forall i | 2 <= i <= n && i / 2 == y ensures GrandLeq(s, w, i, y) {
      assert ParentLeq(h, w, i);
    }
  }

  /** The first entry of a heap is a lightest one. */
  lemma {:induction false} HeapMin(h: seq<int>, w: seq<int>, n: nat, i: nat)
    requires Heap(h, w, n) && 1 <= i <= n
    ensures w[h[1]] <= w[h[i]]
    decreases i
  {
    if i > 1 {
      assert ParentLeq(h, w, i);
      HeapMin(h, w, n, i / 2);
    }
  }

  method UpHeap(heap: array<int>, weight: array<int>, z: nat)
    requires heap != weight && z < heap.Length && 0 < weight.Length
    requires forall i :: 0 <= i <= z ==> 0 <= heap[i] < weight.Length
    requires heap[0] == 0 && weight[0] == 0 && forall i :: 1 <= i <= z ==> weight[heap[i]] > 0
    modifies heap
    ensures heap[..] == UpHeaped(old(heap[..]), weight[..], z)
  {
    hide UpHeaped;
    var zz := z;
    var tmp := heap[zz];
    ghost var cur, w := heap[..], weight[..];
    while weight[tmp] < weight[heap[zz / 2]]
      invariant 0 <= zz <= z && |cur| == heap.Length && cur[zz] == tmp && 0 <= tmp < weight.Length
      invariant zz > 0 || z == 0
      invariant forall t :: 0 <= t < |cur| && t != zz ==> heap[t] == cur[t]
      invariant forall i :: 0 <= i <= z ==> 0 <= cur[i] < weight.Length
      invariant cur[0] == 0 && forall i :: 1 <= i <= z ==> w[cur[i]] > 0
      invariant heap[0] == 0
      invariant UpHeaped(cur, w, zz) == UpHeaped(old(heap[..]), w, z)
      decreases zz
    {
      UpStep(cur, w, zz);
      cur := Swap(cur, zz, zz / 2);
      heap[zz] := heap[zz / 2];
      zz := zz / 2;
    }
    UpStop(cur, w, zz);
    heap[zz] := tmp;
    assert heap[..] == cur;
  }

  lemma UpStep(h: seq<int>, w: seq<int>, z: nat)
    requires 0 < z < |h| && 0 <= h[z] < |w| && 0 <= h[z / 2] < |w| && w[h[z]] < w[h[z / 2]]
    ensures UpHeaped(h, w, z) == UpHeaped(Swap(h, z, z / 2), w, z / 2)
  {
  }

  lemma UpStop(h: seq<int>, w: seq<int>, z: nat)
    requires z < |h| && 0 <= h[z] < |w| && 0 <= h[z / 2] < |w|
    requires w[h[z]] >= w[h[z / 2]]
    ensures UpHeaped(h, w, z) == h
  {
  }

  method DownHeap(heap: array<int>, weight: array<int>, nHeap: nat, z: nat)
    requires heap != weight && 1 <= z && nHeap < heap.Length && z < heap.Length
    requires forall i :: 1 <= i <= nHeap || i == z ==> 0 <= heap[i] < weight.Length
    modifies heap
    ensures heap[..] == DownHeaped(old(heap[..]), weight[..], nHeap, z)
  {
    var zz := z;
    var tmp := heap[zz];
    ghost var cur, w := heap[..], weight[..];
    while true
      invariant 1 <= zz < heap.Length && |cur| == heap.Length && cur[zz] == tmp && 0 <= tmp < weight.Length
      invariant forall t :: 0 <= t < |cur| && t != zz ==> heap[t] == cur[t]
      invariant forall i :: 1 <= i <= nHeap ==> 0 <= cur[i] < weight.Length
      invariant DownHeaped(cur, w, nHeap, zz) == DownHeaped(old(heap[..]), w, nHeap, z)
      decreases heap.Length - zz
    {
      var yy := zz * 2;
      if yy > nHeap { break; }
      if yy < nHeap && weight[heap[yy + 1]] < weight[heap[yy]] { yy := yy + 1; }
      assert yy == LighterChild(cur, w, nHeap, zz);
      if weight[tmp] < weight[heap[yy]] { break; }
      cur := Swap(cur, zz, yy);
      heap[zz] := heap[yy];
      zz := yy;
    }
    heap[zz] := tmp;
    assert heap[..] == cur;
  }

  // ----- taking roots off the heap and putting them on

  /** Entries 1..n form a heap that lists each of `in` once: mult counts how often. */
  ghost predicate HeapOf(h: seq<int>, w: seq<int>, n: nat, roots: set<int>)
  {
    && n < |h| && h[0] == 0 && |w| > 0 && w[0] == 0 && Heap(h, w, n)
    && (forall x :: Occ(h, 1, n + 1, x) == if x in roots then 1 else 0)
    && (forall i :: 1 <= i <= n ==> w[h[i]] > 0)
  }

  lemma HeapEntry(h: seq<int>, w: seq<int>, n: nat, roots: set<int>, i: nat)
    requires HeapOf(h, w, n, roots) && 1 <= i <= n
    ensures h[i] in roots
  {
    OccPositive(h, 1, n + 1, i);
  }

  lemma HeapMinRoot(h: seq<int>, w: seq<int>, n: nat, roots: set<int>, r: int)
    requires HeapOf(h, w, n, roots) && r in roots
    ensures n >= 1 && 0 <= r < |w| && w[h[1]] <= w[r]
  {
    assert Occ(h, 1, n + 1, r) == 1;
    var i := OccWitness(h, 1, n + 1, r);
    HeapMin(h, w, n, i);
  }

  lemma PopOcc(h: seq<int>, n: nat, x: int)
    requires 1 <= n < |h|
    ensures Occ(h[1 := h[n]], 1, n, x) == Occ(h, 1, n + 1, x) - (if h[1] == x then 1 else 0)
  {
    if n == 1 {
      assert Occ(h, 1, 2, x) == Occ(h, 1, 1, x) + (if h[1] == x then 1 else 0);
    } else {
      OccUpdate(h, 1, n, 1, h[n], x);
    }
  }

  lemma PopOk(h: seq<int>, w: seq<int>, n: nat, roots: set<int>)
    requires HeapOf(h, w, n, roots) && n >= 1
    ensures h[1] in roots
    ensures 0 <= h[n] < |w| && 0 <= h[1] < |w|
    ensures HeapOf(DownHeaped(h[1 := h[n]], w, n - 1, 1), w, n - 1, roots - {h[1]})
  {
    HeapEntry(h, w, n, roots, 1);
    var s := h[1 := h[n]];
    var t := DownHeaped(s, w, n - 1, 1);
    forall x ensures Occ(s, 1, n, x) == if x in roots - {h[1]} then 1 else 0 {
      PopOcc(h, n, x);
      assert Occ(h, 1, n + 1, x) == if x in roots then 1 else 0;
    }
    if n > 1 {
      forall i | 2 <= i <= n - 1 && i / 2 != 1 ensures ParentLeq(s, w, i) { assert ParentLeq(h, w, i); }
      DownHeapedOk(s, w, n - 1, 1);
      forall i | 1 <= i <= n - 1 ensures w[t[i]] > 0 {
        var j := RearrangedSource(s, t, 1, n, i);
      }
    }
  }

  method Pop(heap: array<int>, weight: array<int>, nHeap: nat, ghost roots: set<int>) returns (n1: int)
    requires heap != weight && HeapOf(heap[..], weight[..], nHeap, roots) && nHeap >= 1
    modifies heap
    ensures n1 in roots && 0 <= n1 < weight.Length && HeapOf(heap[..], weight[..], nHeap - 1, roots - {n1})
    ensures forall r :: r in roots ==> 0 <= r < weight.Length && weight[n1] <= weight[r]
  {
    hide HeapOf, DownHeaped, Occ;
    ghost var h, w := heap[..], weight[..];
    HeapShape(h, w, nHeap, roots);
    PopOk(h, w, nHeap, roots);
    forall r | r in roots ensures 0 <= r < |w| && w[h[1]] <= w[r] {
      HeapMinRoot(h, w, nHeap, roots, r);
    }
    n1 := heap[1];
    heap[1] := heap[nHeap];
    assert heap[..] == h[1 := h[nHeap]];
    forall i | 1 <= i <= nHeap - 1 || i == 1 ensures 0 <= heap[i] < weight.Length {
      assert heap[i] == h[1 := h[nHeap]][i];
    }
    DownHeap(heap, weight, nHeap - 1, 1);
  }

  lemma HeapShape(h: seq<int>, w: seq<int>, n: nat, roots: set<int>)
    requires HeapOf(h, w, n, roots)
    ensures n < |h| && h[0] == 0 && |w| > 0 && w[0] == 0
    ensures forall i :: 0 <= i <= n ==> 0 <= h[i] < |w|
    ensures forall i :: 1 <= i <= n ==> w[h[i]] > 0
  {
  }

  lemma PushOk(h: seq<int>, w: seq<int>, n: nat, roots: set<int>, x: int)
    requires HeapOf(h, w, n, roots) && n + 1 < |h| && x !in roots && 0 <= x < |w| && w[x] > 0
    ensures HeapOf(UpHeaped(h[n + 1 := x], w, n + 1), w, n + 1, roots + {x})
  {
    var s := h[n + 1 := x];
    var t := UpHeaped(s, w, n + 1);
    forall y ensures Occ(s, 1, n + 2, y) == if y in roots + {x} then 1 else 0 {
      OccSame(h, s, 1, n + 1, y);
      assert Occ(h, 1, n + 1, y) == if y in roots then 1 else 0;
    }
    forall i | 2 <= i <= n + 1 && i != n + 1 ensures ParentLeq(s, w, i) { assert ParentLeq(h, w, i); }
    UpHeapedOk(s, w, n + 1, n + 1);
    forall i | 1 <= i <= n + 1 ensures w[t[i]] > 0 {
      var j := RearrangedSource(s, t, 1, n + 2, i);
    }
  }

  method Push(heap: array<int>, weight: array<int>, nHeap: nat, x: int, ghost roots: set<int>)
    requires heap != weight && HeapOf(heap[..], weight[..], nHeap, roots) && nHeap + 1 < heap.Length
    requires x !in roots && 0 < x < weight.Length && weight[x] > 0
    modifies heap
    ensures HeapOf(heap[..], weight[..], nHeap + 1, roots + {x})
  {
    hide HeapOf, UpHeaped, Occ;
    ghost var h, w := heap[..], weight[..];
    HeapShape(h, w, nHeap, roots);
    PushOk(h, w, nHeap, roots, x);
    heap[nHeap + 1] := x;
    assert heap[..] == h[nHeap + 1 := x];
    UpHeap(heap, weight, nHeap + 1);
  }

  // ----- growing one tree

  /** The arrays hold the forest, and the heap its roots. */
  ghost predicate Growing(f: Forest, h: seq<int>, w: seq<int>, p: seq<int>, nHeap: nat, total: int)
  {
    && Good(f) && Sum(RootCounts(f), |f.parent|) == total
    && |f.parent| <= |w| && |f.parent| <= |p|
    && w[..|f.weight|] == f.weight
    && (forall x :: 1 <= x < |f.parent| ==> p[x] == f.parent[x])
    && HeapOf(h, w, nHeap, RootSet(f))
  }

  ghost function RootSet(f: Forest): (r: set<int>)
    ensures forall x :: x in r <==> f.Root(x)
  {
    set x | 1 <= x < |f.parent| && f.Root(x)
  }

  /** Every total the code can meet keeps trees so low that heights stay inside their 8 bits and weights inside 31. */
  lemma RootFits(f: Forest, r: int, total: int)
    requires Good(f) && f.Root(r) && Sum(RootCounts(f), |f.parent|) == total < 0x80_0000
    ensures f.Height(r) < 33 && f.Count(r) <= total
  {
    hide *;
    Fib35();
    HeightBound(f, r, 33);
    RootCount(f, r);
  }

  lemma PickedLightest(f: Forest, n1: int, n2: int, w: seq<int>)
    requires |f.weight| == |f.parent| <= |w| && w[..|f.weight|] == f.weight
    requires n1 in RootSet(f) && n2 in RootSet(f) - {n1}
    requires forall r :: r in RootSet(f) ==> 0 <= r < |w| && w[n1] <= w[r]
    requires forall r :: r in RootSet(f) - {n1} ==> 0 <= r < |w| && w[n2] <= w[r]
    ensures Lightest(f, n1, n2)
  {
    forall x | 0 <= x < |f.weight| ensures f.weight[x] == w[x] {}
    forall r | f.Root(r) && r != n1 && r != n2 ensures f.weight[n2] <= f.weight[r] {
      assert r in RootSet(f) - {n1};
    }
    assert n2 in RootSet(f);
  }

  lemma MergedRoots(f: Forest, n1: int, n2: int)
    requires 1 <= n1 < |f.parent| && 1 <= n2 < |f.parent| && |f.weight| == |f.parent|
    ensures RootSet(Merge(f, n1, n2)) == RootSet(f) - {n1} - {n2} + {|f.parent|}
  {
    var g := Merge(f, n1, n2);
    forall x ensures x in RootSet(g) <==> x in RootSet(f) - {n1} - {n2} + {|f.parent|} {
    }
  }

  lemma HeapOtherWeights(h: seq<int>, w: seq<int>, w': seq<int>, n: nat, roots: set<int>)
    requires HeapOf(h, w, n, roots) && |w'| == |w| && w'[0] == w[0]
    requires forall r :: r in roots && 0 <= r < |w| ==> w'[r] == w[r]
    ensures HeapOf(h, w', n, roots)
  {
    forall i | 1 <= i <= n ensures h[i] in roots { HeapEntry(h, w, n, roots, i); }
    forall i | 2 <= i <= n ensures ParentLeq(h, w', i) {
      assert ParentLeq(h, w, i);
      assert h[i] in roots && h[i / 2] in roots;
    }
  }

  /** Two roots become one. */
  method MergeStep(heap: array<int>, weight: array<int>, parent: array<int>, nHeap: nat, nNodes0: nat,
                   ghost f: Forest, ghost total: int) returns (nNodes: nat, ghost g: Forest)
    requires heap != weight && heap != parent && weight != parent
    requires Growing(f, heap[..], weight[..], parent[..], nHeap, total) && total < 0x80_0000
    requires 2 <= nHeap && nNodes0 == f.Nodes() && nNodes0 + 1 < weight.Length && nNodes0 + 1 < parent.Length
    modifies heap, weight, parent
    ensures nNodes == nNodes0 + 1 == g.Nodes() && g.n == f.n && g.parent[nNodes] == -1 && f.weight <= g.weight
    ensures Growing(g, heap[..], weight[..], parent[..], nHeap - 1, total) && Merged(f, g)
  {
    hide Fib, Good, HeapOf, Sum, RootCounts;
    ghost var roots := RootSet(f);
    GoodShape(f);
    HeapShape(heap[..], weight[..], nHeap, roots);
    var n1 := Pop(heap, weight, nHeap, roots);
    var n2 := Pop(heap, weight, nHeap - 1, roots - {n1});
    PickedLightest(f, n1, n2, weight[..]);
    RootFits(f, n1, total);
    RootFits(f, n2, total);
    MergeGood(f, n1, n2);
    g := Merge(f, n1, n2);
    nNodes := nNodes0 + 1;
    parent[n1] := nNodes;
    parent[n2] := nNodes;
    ghost var w := weight[..];
    weight[nNodes] := AddWeights(weight[n1], weight[n2]);
    parent[nNodes] := -1;
    assert g.weight == f.weight + [AddWeights(f.weight[n1], f.weight[n2])];
    assert weight[..|g.weight|] == g.weight;
    HeapOtherWeights(heap[..], w, weight[..], nHeap - 2, roots - {n1} - {n2});
    MergedRoots(f, n1, n2);
    RootFits(g, nNodes, total);
    RootWeighs(g, nNodes);
    assert weight[nNodes] < 0x8000_0000;
    Push(heap, weight, nHeap - 2, nNodes, roots - {n1} - {n2});
  }

  lemma GoodShape(f: Forest)
    requires Good(f)
    ensures 1 <= f.n < |f.parent| == |f.weight| == |f.left| == |f.right|
  {
  }

  lemma RootWeighs(f: Forest, r: int)
    requires Good(f) && f.Root(r)
    ensures f.weight[r] > 0
  {
    assert Grown(f, r);
    FibMono(2, f.Height(r) + 2);
  }

  // ----- the first forest: every symbol a tree of its own

  function Leaves(c: seq<int>): Forest
  {
    Forest(|c|, seq(|c| + 1, x => if x == 0 then 0 else -1),
           seq(|c| + 1, x requires 0 <= x < |c| + 1 => if x == 0 then 0 else 256 * c[x - 1]),
           seq(|c| + 1, x => 0), seq(|c| + 1, x => 0))
  }

  lemma LeavesShape(c: seq<int>)
    ensures var f := Leaves(c);
            f.n == |c| && |f.parent| == |f.weight| == |f.left| == |f.right| == |c| + 1
  {
  }

  lemma LeafGood(c: seq<int>, x: int)
    requires 1 <= x <= |c| && c[x - 1] >= 1
    ensures var f := Leaves(c); f.Root(x) && Grown(f, x) && f.Height(x) == 0 && Linked(f, x)
  {
    var f := Leaves(c);
    assert f.weight[x] == 256 * c[x - 1] && f.parent[x] == -1;
    assert f.Height(x) == 0 && f.Count(x) == c[x - 1];
    assert Fib(2) == 1;
  }

  lemma LeavesGood(c: seq<int>)
    requires c != [] && forall i :: 0 <= i < |c| ==> c[i] >= 1
    ensures Good(Leaves(c)) && Sum(RootCounts(Leaves(c)), |c| + 1) == Sum(c, |c|)
  {
    hide Sum, RootCounts, Good, Fib, Grown, Linked, Leaves;
    LeavesShape(c);
    var f := Leaves(c);
    forall x | 1 <= x <= |c| ensures f.Root(x) && Grown(f, x) && f.Height(x) == 0 && Linked(f, x) {
      assert c[x - 1] >= 1;
      LeafGood(c, x);
    }
    AllRootsGood(f);
    LeavesSum(c, |c|);
  }

  lemma AllRootsGood(f: Forest)
    requires 1 <= f.n == |f.parent| - 1 && |f.parent| == |f.weight| == |f.left| == |f.right|
    requires forall x :: 1 <= x <= f.n ==> f.Root(x) && Grown(f, x) && f.Height(x) == 0 && Linked(f, x)
    ensures Good(f)
  {
    hide InnerOk, Fib, Grown, Linked;
  }

  lemma {:induction false} LeavesSum(c: seq<int>, k: nat)
    requires k <= |c|
    ensures Sum(RootCounts(Leaves(c)), k + 1) == Sum(c, k)
  {
    var s := RootCounts(Leaves(c));
    if k > 0 {
      LeavesSum(c, k - 1);
      assert s[k] == c[k - 1];
    } else {
      assert s[0] == 0;
      assert Sum(s, 1) == Sum(s, 0) + s[0];
    }
  }

  /** Each symbol weighs 256 times its count. */
  ghost predicate Weighs(w: seq<int>, c: seq<int>)
  {
    |c| < |w| && forall i :: 0 <= i < |c| ==> c[i] >= 1 && w[i + 1] == 256 * c[i]
  }

  lemma WeighsStill(w: seq<int>, w': seq<int>, c: seq<int>)
    requires Weighs(w, c) && |w'| == |w| && forall i :: 1 <= i < |w| ==> w'[i] == w[i]
    ensures Weighs(w', c)
  {
  }

  lemma RangeStep(i: nat)
    requires i >= 1
    ensures i !in Range(1, i) && Range(1, i + 1) == Range(1, i) + {i}
  {
  }

  lemma WeighsAt(w: seq<int>, c: seq<int>, x: nat)
    requires Weighs(w, c) && 1 <= x <= |c|
    ensures w[x] == 256 * c[x - 1] && c[x - 1] >= 1
  {
    assert w[x - 1 + 1] == 256 * c[x - 1];
  }

  method Plant(heap: array<int>, weight: array<int>, parent: array<int>, alphaSize: nat, ghost c: seq<int>)
    returns (ghost f: Forest)
    requires heap != weight && heap != parent && weight != parent
    requires 1 <= alphaSize == |c| && alphaSize + 1 < heap.Length && alphaSize < weight.Length && alphaSize < parent.Length
    requires Weighs(weight[..], c)
    modifies heap, weight, parent
    ensures f == Leaves(c) && Growing(f, heap[..], weight[..], parent[..], alphaSize, Sum(c, alphaSize))
  {
    hide HeapOf, Leaves, Weighs, Growing, Sum, Range;
    ghost var was := weight[..];
    heap[0] := 0;
    weight[0] := 0;
    parent[0] := -2;
    WeighsStill(was, weight[..], c);
    ghost var w := weight[..];
    var nHeap := 0;
    EmptyHeap(heap[..], weight[..]);
    var i := 1;
    while i <= alphaSize
      invariant 1 <= i <= alphaSize + 1 && nHeap == i - 1
      invariant forall x :: 1 <= x < i ==> parent[x] == -1
      invariant weight[..] == w && weight[0] == 0
      invariant HeapOf(heap[..], weight[..], nHeap, Range(1, i))
    {
      parent[i] := -1;
      WeighsAt(w, c, i);
      Push(heap, weight, nHeap, i, Range(1, i));
      nHeap := nHeap + 1;
      RangeStep(i);
      i := i + 1;
    }
    f := Leaves(c);
    Planted(heap[..], weight[..], parent[..], c);
  }

  /** Before any merging, the symbols' lengths are the roots' lengths. */
  lemma LeavesCheaper(c: seq<int>)
    requires c != [] && forall i :: 0 <= i < |c| ==> c[i] >= 1
    ensures AllCheaper(Leaves(c), c) && Adds(Leaves(c)) && Counted(Leaves(c), c)
  {
    hide Leaves, Cheaper, FitLengths, Cost;
    LeavesShape(c);
    forall len: seq<int>, m: nat | |len| == |c| && FitLengths(len, m) ensures Cheaper(Leaves(c), c, len, m) {
      LeavesFit(c, len, m);
    }
    forall i | 0 <= i < |c| ensures Leaves(c).Count(i + 1) == c[i] { LeafGood(c, i + 1); LeafCount(c, i + 1); }
  }

  lemma LeafCount(c: seq<int>, x: nat)
    requires 1 <= x <= |c|
    ensures x < |Leaves(c).weight| && Leaves(c).Count(x) == c[x - 1]
  {
  }

  lemma LeavesFit(c: seq<int>, len: seq<int>, m: nat)
    requires c != [] && |len| == |c| && (forall i :: 0 <= i < |c| ==> c[i] >= 1) && FitLengths(len, m)
    ensures Cheaper(Leaves(c), c, len, m)
  {
    hide Leaves, Cost, Sum, HuffmanForest.Kraft, RootCost, RootSpace, Pow2;
    LeavesShape(c);
    var f := Leaves(c);
    var t: seq<nat> := seq(|c| + 1, x requires 0 <= x < |c| + 1 => if x == 0 then 0 else len[x - 1]);
    forall x | f.Root(x) ensures t[x] <= m && f.Count(x) >= 0 { LeafCount(c, x); }
    LeavesSums(c, len, t, m, |c|);
    assert Inner(f, |c|) == 0;
    assert Fits(f, t, m) && CostsLess(f, t, Cost(c, len, |c|));
  }

  lemma {:induction false} LeavesSums(c: seq<int>, len: seq<int>, t: seq<nat>, m: nat, k: nat)
    requires |len| == |c| && |t| == |c| + 1 && (forall i :: 0 <= i < |c| ==> c[i] >= 1) && k <= |c|
    requires forall i :: 0 <= i < |c| ==> 0 <= t[i + 1] == len[i] <= m
    ensures |Leaves(c).parent| == |Leaves(c).weight| == |t|
    ensures Sum(RootSpace(Leaves(c), t, m), k + 1) == Kraft(len, m, k) && Sum(RootCost(Leaves(c), t), k + 1) == Cost(c, len, k)
  {
    hide Leaves, RootCost, RootSpace, Pow2;
    LeavesShape(c);
    var s, u := RootSpace(Leaves(c), t, m), RootCost(Leaves(c), t);
    if k > 0 {
      LeavesSums(c, len, t, m, k - 1);
      LeafGood(c, k);
      LeafCount(c, k);
      assert t[k - 1 + 1] == len[k - 1];
    } else {
      assert Sum(s, 1) == Sum(s, 0) + s[0] && Sum(u, 1) == Sum(u, 0) + u[0];
    }
  }

  lemma Planted(h: seq<int>, w: seq<int>, p: seq<int>, c: seq<int>)
    requires c != [] && |c| < |w| && |c| < |p| && w[0] == 0
    requires Weighs(w, c) && forall x :: 1 <= x < |c| + 1 ==> p[x] == -1
    requires HeapOf(h, w, |c|, Range(1, |c| + 1))
    ensures Growing(Leaves(c), h, w, p, |c|, Sum(c, |c|))
  {
    hide HeapOf, Good, Sum, RootCounts;
    var f := Leaves(c);
    LeavesGood(c);
    assert RootSet(f) == Range(1, |c| + 1);
    forall x | 0 <= x < |f.weight| ensures w[..|f.weight|][x] == f.weight[x] {
      if x > 0 { assert w[x - 1 + 1] == 256 * c[x - 1]; }
    }
    assert w[..|f.weight|] == f.weight;
  }

  lemma EmptyHeap(h: seq<int>, w: seq<int>)
    requires |h| > 0 && |w| > 0 && h[0] == 0 && w[0] == 0
    ensures HeapOf(h, w, 0, Range(1, 1))
  {
  }

  /** A finished tree: one root, the last node. */
  ghost predicate Finished(f: Forest)
  {
    && Good(f) && f.n >= 2 && f.Nodes() > f.n && f.Root(f.Nodes())
    && forall x :: 1 <= x < f.Nodes() ==> f.parent[x] != -1
  }

  lemma OneRoot(f: Forest, h: seq<int>, w: seq<int>)
    requires Good(f) && f.n >= 2 && f.Nodes() > f.n && f.Root(f.Nodes()) && HeapOf(h, w, 1, RootSet(f))
    ensures Finished(f)
  {
    assert f.Nodes() in RootSet(f);
    assert Occ(h, 1, 2, f.Nodes()) == 1;
    forall x | 1 <= x < f.Nodes() ensures f.parent[x] != -1 {
      assert f.Root(x) ==> x in RootSet(f) && Occ(h, 1, 2, x) == 1;
    }
  }

  lemma WeighsOnes(w: seq<int>, c: seq<int>)
    requires Weighs(w, c)
    ensures forall i :: 0 <= i < |c| ==> c[i] >= 1
  {
  }

  /** One round: plant the leaves, then merge until one tree is left. */
  method GrowTree(heap: array<int>, weight: array<int>, parent: array<int>, alphaSize: nat, ghost c: seq<int>)
    returns (ghost f: Forest)
    requires heap != weight && heap != parent && weight != parent
    requires heap.Length == MAX_ALPHA_SIZE + 2 && weight.Length == parent.Length == MAX_ALPHA_SIZE * 2
    requires 2 <= alphaSize == |c| <= MAX_ALPHA_SIZE
    requires Weighs(weight[..], c)
    requires Sum(c, alphaSize) < 0x80_0000
    modifies heap, weight, parent
    ensures f.n == alphaSize && Finished(f) && Sum(RootCounts(f), |f.parent|) == Sum(c, alphaSize)
    ensures |f.parent| <= parent.Length && forall x :: 1 <= x < |f.parent| ==> parent[x] == f.parent[x]
    ensures Weighs(weight[..], c) && AllCheaper(f, c) && Adds(f) && Counted(f, c)
  {
    hide HeapOf, Good, Sum, RootCounts, AllCheaper, Adds, Merged;
    WeighsOnes(weight[..], c);
    LeavesCheaper(c);
    f := Plant(heap, weight, parent, alphaSize, c);
    var nNodes, nHeap := alphaSize, alphaSize;
    ghost var w := f.weight;
    SumNat(c, alphaSize);
    while nHeap > 1
      invariant 1 <= nHeap && nNodes + nHeap == 2 * alphaSize && nNodes == f.Nodes() && f.n == alphaSize
      invariant Growing(f, heap[..], weight[..], parent[..], nHeap, Sum(c, alphaSize))
      invariant nNodes > alphaSize ==> f.parent[nNodes] == -1
      invariant AllCheaper(f, c) && Adds(f)
      invariant |f.weight| >= alphaSize + 1 && forall x :: 1 <= x <= alphaSize ==> f.weight[x] == 256 * c[x - 1]
      decreases nHeap
    {
      ghost var f0 := f;
      GoodShape(f0);
      nNodes, f := MergeStep(heap, weight, parent, nHeap, nNodes, f, Sum(c, alphaSize));
      MergeCheaper(f0, f, c);
      MergeAdds(f0, f);
      nHeap := nHeap - 1;
    }
    assert nNodes < MAX_ALPHA_SIZE * 2;
    GoodShape(f);
    OneRoot(f, heap[..], weight[..]);
    forall i | 0 <= i < |c| ensures c[i] >= 1 && weight[..][i + 1] == 256 * c[i] {
      assert weight[..|f.weight|][i + 1] == f.weight[i + 1];
    }
  }

  // ----- lengths, and rescaling

  /** Climbing the parent links counts a node's depth. */
  method Climb(parent: array<int>, i: nat, ghost p: seq<int>) returns (j: nat)
    requires WellParented(p) && 1 <= i < |p| <= parent.Length
    requires forall x :: 1 <= x < |p| ==> parent[x] == p[x]
    ensures j == Depth(p, i)
  {
    j := 0;
    var k := i;
    while parent[k] >= 0
      invariant 1 <= k < |p| && j + Depth(p, k) == Depth(p, i)
      decreases |p| - k
    {
      assert parent[k] == p[k];
      k := parent[k];
      j := j + 1;
    }
  }

  /** Read the code lengths off the tree. */
  method Measure(len: array<int>, parent: array<int>, alphaSize: nat, maxLen: nat, ghost f: Forest) returns (tooLong: bool)
    requires len != parent && alphaSize <= len.Length
    requires Finished(f) && f.n == alphaSize && |f.parent| <= parent.Length && WellParented(f.parent)
    requires forall x :: 1 <= x < |f.parent| ==> parent[x] == f.parent[x]
    modifies len
    ensures forall i :: 0 <= i < alphaSize ==> len[i] == Depth(f.parent, i + 1)
    ensures tooLong <==> exists i :: 0 <= i < alphaSize && len[i] > maxLen
  {
    hide Good;
    tooLong := false;
    var i := 1;
    while i <= alphaSize
      invariant 1 <= i <= alphaSize + 1
      invariant forall k :: 0 <= k < i - 1 ==> len[k] == Depth(f.parent, k + 1)
      invariant tooLong <==> exists k :: 0 <= k < i - 1 && len[k] > maxLen
      invariant forall x :: 1 <= x < |f.parent| ==> parent[x] == f.parent[x]
    {
      var j := Climb(parent, i, f.parent);
      len[i - 1] := j;
      if j > maxLen { tooLong := true; }
      i := i + 1;
    }
  }

  function Scaled(c: seq<int>): (r: seq<int>)
    ensures |r| == |c| && forall i :: 0 <= i < |c| ==> r[i] == 1 + c[i] / 2
  {
    seq(|c|, i requires 0 <= i < |c| => 1 + c[i] / 2)
  }

  lemma {:induction false} ScaledSum(c: seq<int>, k: nat)
    requires k <= |c| && forall i :: 0 <= i < |c| ==> c[i] >= 1
    ensures 2 * Sum(Scaled(c), k) <= 2 * k + Sum(c, k)
  {
    if k > 0 { ScaledSum(c, k - 1); }
  }

  method Rescale(weight: array<int>, alphaSize: nat, ghost c: seq<int>)
    requires alphaSize == |c| && alphaSize + 1 <= weight.Length
    requires Weighs(weight[..], c)
    modifies weight
    ensures Weighs(weight[..], Scaled(c))
  {
    var i := 1;
    while i <= alphaSize
      invariant 1 <= i <= alphaSize + 1
      invariant forall k :: 0 <= k < i - 1 ==> weight[k + 1] == 256 * Scaled(c)[k]
      invariant forall k :: i - 1 <= k < |c| ==> weight[k + 1] == 256 * c[k]
    {
      assert weight[i - 1 + 1] == 256 * c[i - 1];
      var j := weight[i] / 256;
      j := 1 + j / 2;
      weight[i] := 256 * j;
      i := i + 1;
    }
  }

  /** A code word longer than maxLen means a total so large that rescaling makes it smaller: rounds come to an end. */
  lemma TooLongShrinks(f: Forest, c: seq<int>, i: nat, maxLen: nat)
    requires Finished(f) && f.n == |c| <= MAX_ALPHA_SIZE && WellParented(f.parent) && maxLen >= 17
    requires Sum(RootCounts(f), |f.parent|) == Sum(c, |c|)
    requires i < |c| && Depth(f.parent, i + 1) > maxLen
    requires forall i :: 0 <= i < |c| ==> c[i] >= 1
    ensures Sum(Scaled(c), |c|) < Sum(c, |c|)
  {
    hide Good, RootCounts, Sum, Fib, Depth;
    var r := Top(f.parent, i + 1);
    DepthAtMostHeight(f, i + 1);
    if Sum(c, |c|) < Fib(20) { HeightBound(f, r, 18); }
    Fib20();
    ScaledSum(c, |c|);
  }

  lemma LenInRange(f: Forest, i: nat)
    requires Finished(f) && WellParented(f.parent) && i < f.n
    ensures Depth(f.parent, i + 1) >= 1
  {
  }

  /** The counts after r rounds of rescaling. */
  function ScaledBy(c: seq<int>, r: nat): (s: seq<int>)
    ensures |s| == |c|
  {
    if r == 0 then c else Scaled(ScaledBy(c, r - 1))
  }

  /** Some of the best lengths for these counts are too long. */
  ghost predicate BestTooLong(c: seq<int>, maxLen: nat)
  {
    exists l :: Best(c, l) && Beyond(l, maxLen)
  }

  ghost predicate Beyond(l: seq<int>, maxLen: nat)
  {
    exists i :: 0 <= i < |l| && l[i] > maxLen
  }

  /** The lengths are best for the counts after some rounds of rescaling, and before each of these the best were too long. */
  ghost predicate BestInTime(c: seq<int>, len: seq<int>, maxLen: nat)
  {
    exists r: nat :: BestAfter(c, len, maxLen, r)
  }

  ghost predicate BestAfter(c: seq<int>, len: seq<int>, maxLen: nat, r: nat)
  {
    Best(ScaledBy(c, r), len) && forall q: nat :: q < r ==> BestTooLong(ScaledBy(c, q), maxLen)
  }

  /** The lengths read off the tree are best. */
  lemma MeasuredBest(f: Forest, c: seq<int>, a: seq<int>, n: nat)
    requires Finished(f) && WellParented(f.parent) && n == f.n == |c| <= |a| && AllCheaper(f, c) && Adds(f) && Counted(f, c)
    requires forall i :: 0 <= i < n ==> a[i] == Depth(f.parent, i + 1)
    ensures Best(c, a[..n])
  {
    hide Good, Depth, Adds, Counted, AllCheaper, Best, Measures;
    FinishedSize(f);
    forall i | 0 <= i < n ensures a[i] <= 255 { LowTree(f, i + 1); }
    LeavesMeasured(f, a, n, 255);
    TreeBest(f, c, a[..n], 255);
  }

  lemma LeavesMeasured(f: Forest, a: seq<int>, n: nat, m: nat)
    requires WellParented(f.parent) && n == f.n < |f.parent| && n <= |a|
    requires forall i :: 0 <= i < n ==> a[i] == Depth(f.parent, i + 1) && a[i] <= m
    ensures Measures(f, a[..n], m)
  {
    hide Depth;
    var len := a[..n];
    forall i | 0 <= i < n ensures len[i] == Depth(f.parent, i + 1) <= m { assert len[i] == a[i]; }
  }

  lemma InTime(c: seq<int>, len: seq<int>, maxLen: nat, r: nat)
    requires Best(ScaledBy(c, r), len) && forall q: nat :: q < r ==> BestTooLong(ScaledBy(c, q), maxLen)
    ensures BestInTime(c, len, maxLen)
  {
    hide Best, BestTooLong;
    assert BestAfter(c, len, maxLen, r);
  }

  lemma TooLongHere(c: seq<int>, len: seq<int>, i: nat, maxLen: nat)
    requires Best(c, len) && i < |len| && len[i] > maxLen
    ensures BestTooLong(c, maxLen)
  {
    hide Best;
    assert Beyond(len, maxLen);
  }

  lemma LowTree(f: Forest, x: int)
    requires Good(f) && WellParented(f.parent) && f.Node(x)
    ensures Depth(f.parent, x) <= 255
  {
    hide Fib, Ordered, Grown, InnerOk, Linked;
    DepthAtMostHeight(f, x);
  }

  /** BZ2_hbMakeCodeLengths: on every frequency table it stops, with lengths from 1 to maxLen that use up the code
      space exactly. No lengths that fit the code space are better for the counts, as long as no best ones are too long; and
      otherwise none are better for the counts as rescaled. */
  method MakeCodeLengths(len: array<int>, freq: seq<int>, alphaSize: nat, maxLen: nat)
    requires 2 <= alphaSize <= MAX_ALPHA_SIZE && alphaSize <= len.Length && alphaSize <= |freq| && maxLen >= 17
    requires forall i :: 0 <= i < alphaSize ==> freq[i] >= 0
    requires Sum(Counts(freq, alphaSize), alphaSize) < 0x80_0000
    modifies len
    ensures forall i :: 0 <= i < alphaSize ==> 1 <= len[i] <= maxLen
    ensures Kraft(len[..alphaSize], maxLen, alphaSize) == Pow2(maxLen)
    ensures BestInTime(Counts(freq, alphaSize), len[..alphaSize], maxLen)
  {
    hide Finished, Depth, RootCounts, Sum, Fib, Best, AllCheaper, Adds, Counted, BestTooLong, BestInTime;
    var heap := new int[MAX_ALPHA_SIZE + 2](_ => 0);
    var weight := new int[MAX_ALPHA_SIZE * 2](_ => 0);
    var parent := new int[MAX_ALPHA_SIZE * 2](_ => 0);
    ghost var c, rounds := Counts(freq, alphaSize), 0;
    InitWeights(weight, freq, alphaSize);
    SumNat(c, alphaSize);
    while true
      invariant |c| == alphaSize && Sum(c, alphaSize) < 0x80_0000
      invariant Weighs(weight[..], c)
      invariant Sum(c, alphaSize) >= 0 && rounds >= 0 && c == ScaledBy(Counts(freq, alphaSize), rounds)
      invariant forall q: nat :: q < rounds ==> BestTooLong(ScaledBy(Counts(freq, alphaSize), q), maxLen)
      decreases Sum(c, alphaSize)
    {
      ghost var f := GrowTree(heap, weight, parent, alphaSize, c);
      FinishedParents(f);
      var tooLong := Measure(len, parent, alphaSize, maxLen, f);
      MeasuredBest(f, c, len[..], alphaSize);
      if !tooLong {
        InTime(Counts(freq, alphaSize), len[..alphaSize], maxLen, rounds);
        forall i | 0 <= i < alphaSize ensures 1 <= len[i] <= maxLen { LenInRange(f, i); }
        MeasuredComplete(f, len[..], alphaSize, maxLen);
        break;
      }
      ghost var i :| 0 <= i < alphaSize && len[i] > maxLen;
      TooLongHere(c, len[..alphaSize], i, maxLen);
      TooLongShrinks(f, c, i, maxLen);
      Rescale(weight, alphaSize, c);
      c, rounds := Scaled(c), rounds + 1;
      SumNat(c, alphaSize);
    }
  }

  lemma FinishedParents(f: Forest)
    requires Finished(f)
    ensures WellParented(f.parent)
  {
    GoodParents(f);
  }

  lemma FinishedComplete(f: Forest, len: seq<int>, m: nat)
    requires Finished(f) && WellParented(f.parent) && |len| == f.n
    requires Measures(f, len, m)
    ensures Kraft(len, m, f.n) == Pow2(m)
  {
    hide Good, Depth, Measures;
    CompleteCode(f, len, m);
  }

  lemma FinishedSize(f: Forest)
    requires Finished(f)
    ensures f.n < |f.parent|
  {
    hide Good;
  }

  lemma MeasuredComplete(f: Forest, a: seq<int>, n: nat, m: nat)
    requires Finished(f) && WellParented(f.parent) && n == f.n <= |a|
    requires forall i :: 0 <= i < n ==> a[i] == Depth(f.parent, i + 1) && a[i] <= m
    ensures Kraft(a[..n], m, n) == Pow2(m)
  {
    hide Good, Depth, Kraft, Finished, Measures;
    FinishedSize(f);
    LeavesMeasured(f, a, n, m);
    FinishedComplete(f, a[..n], m);
  }

  /** A frequency of 0 counts as 1. */
  function Counts(freq: seq<int>, n: nat): (r: seq<int>)
    requires n <= |freq|
    ensures |r| == n && forall i :: 0 <= i < n ==> r[i] == if freq[i] == 0 then 1 else freq[i]
  {
    seq(n, i requires 0 <= i < n => if freq[i] == 0 then 1 else freq[i])
  }

  method InitWeights(weight: array<int>, freq: seq<int>, alphaSize: nat)
    requires alphaSize <= |freq| && alphaSize + 1 <= weight.Length
    modifies weight
    requires forall i :: 0 <= i < alphaSize ==> freq[i] >= 0
    ensures Weighs(weight[..], Counts(freq, alphaSize))
  {
    var i := 0;
    while i < alphaSize
      invariant 0 <= i <= alphaSize
      invariant forall k :: 0 <= k < i ==> weight[k + 1] == 256 * Counts(freq, alphaSize)[k]
    {
      weight[i + 1] := (if freq[i] == 0 then 1 else freq[i]) * 256;
      i := i + 1;
    }
  }
}
