/** fallbackSimpleSort and fallbackQSort3: sorting one bucket of fmap by the class of each position. */
module FallbackQSort {
  import opened Bits
  import opened Permutations

  const SMALL_THRESH := 10
  const STACK_SIZE := 100

  /** Positions lo..hi-1 of f name entries of e. */
  ghost predicate InRange(f: seq<int>, e: seq<int>, lo: int, hi: int)
  {
    0 <= lo && hi <= |f| && forall i :: lo <= i < hi ==> 0 <= f[i] < |e|
  }

  /** f lists lo..hi-1 in nondecreasing order of class. */
  ghost predicate SortedByClass(f: seq<int>, e: seq<int>, lo: int, hi: int)
    requires InRange(f, e, lo, hi)
  {
    forall i, j :: lo <= i < j < hi ==> e[f[i]] <= e[f[j]]
  }

  /** f with its entry i carried up past the smaller classes g, 2g, ... further on, up to hi. */
  function CarriedUp(f: seq<int>, e: seq<int>, i: nat, hi: nat, g: nat): (r: seq<int>)
    requires g >= 1 && i <= hi < |f|
    requires InRange(f, e, i, hi + 1)
    ensures |r| == |f|
    decreases hi - i
  {
    if i + g <= hi && e[f[i]] > e[f[i + g]] then CarriedUp(Swap(f, i, i + g), e, i + g, hi, g) else f
  }

  lemma {:induction false} CarriedUpRearranges(f: seq<int>, e: seq<int>, i: nat, hi: nat, g: nat)
    requires g >= 1 && i <= hi < |f|
    requires InRange(f, e, i, hi + 1)
    ensures Rearranged(f, CarriedUp(f, e, i, hi, g), i, hi + 1)
    ensures InRange(CarriedUp(f, e, i, hi, g), e, i, hi + 1)
    decreases hi - i
  {
    if i + g <= hi && e[f[i]] > e[f[i + g]] {
      var f' := Swap(f, i, i + g);
      var r := CarriedUp(f', e, i + g, hi, g);
      CarriedUpRearranges(f', e, i + g, hi, g);
      SwapRearranges(f, i, i + g, i, hi + 1);
      RearrangedWiden(f', r, i + g, hi + 1, i, hi + 1);
      RearrangedTrans(f, f', r, i, hi + 1);
    }
  }

  lemma {:induction false} CarriedUpSorted(f: seq<int>, e: seq<int>, i: nat, hi: nat)
    requires i <= hi < |f|
    requires InRange(f, e, i, hi + 1) && SortedByClass(f, e, i + 1, hi + 1)
    ensures var r := CarriedUp(f, e, i, hi, 1);
            && InRange(r, e, i, hi + 1) && SortedByClass(r, e, i, hi + 1)
            && (r[i] == f[i] || (i < hi && r[i] == f[i + 1]))
            && (forall t :: 0 <= t < i ==> r[t] == f[t])
    decreases hi - i
  {
    if i + 1 <= hi && e[f[i]] > e[f[i + 1]] {
      var f' := Swap(f, i, i + 1);
      var r := CarriedUp(f', e, i + 1, hi, 1);
      SortedTail(f, f', e, i, hi);
      CarriedUpSorted(f', e, i + 1, hi);
      assert r[i] == f[i + 1] && (r[i + 1] == f[i] || (i + 1 < hi && r[i + 1] == f[i + 2]));
      SortedFront(r, e, i, hi);
    } else if i < hi {
      SortedFront(f, e, i, hi);
    }
  }

  lemma SortedTail(f: seq<int>, f': seq<int>, e: seq<int>, i: nat, hi: nat)
    requires i + 1 <= hi < |f| == |f'| && InRange(f, e, i, hi + 1) && SortedByClass(f, e, i + 1, hi + 1)
    requires f' == Swap(f, i, i + 1)
    ensures InRange(f', e, i + 1, hi + 1) && SortedByClass(f', e, i + 2, hi + 1)
    ensures i + 1 < hi ==> e[f[i + 1]] <= e[f[i + 2]]
  {
  }

  lemma SortedFront(r: seq<int>, e: seq<int>, i: nat, hi: nat)
    requires i < hi < |r| && InRange(r, e, i + 1, hi + 1) && SortedByClass(r, e, i + 1, hi + 1)
    requires 0 <= r[i] < |e| && e[r[i]] <= e[r[i + 1]]
    ensures InRange(r, e, i, hi + 1) && SortedByClass(r, e, i, hi + 1)
  {
  }

  /** The inner loop of both insertion passes. */
  method CarryUp(fmap: array<int>, eclass: array<int>, i: nat, hi: nat, g: nat)
    requires fmap != eclass
    requires g >= 1 && i + g <= hi < fmap.Length
    requires InRange(fmap[..], eclass[..], i, hi + 1)
    modifies fmap
    ensures fmap[..] == old(CarriedUp(fmap[..], eclass[..], i, hi, g))
  {
    var tmp := fmap[i];
    var ec := eclass[tmp];
    var j := i + g;
    ghost var cur := fmap[..];
    while j <= hi && ec > eclass[fmap[j]]
      invariant i + g <= j <= hi + g
      invariant |cur| == fmap.Length && cur[j - g] == tmp
      invariant forall t :: 0 <= t < |cur| && t != j - g ==> fmap[t] == cur[t]
      invariant InRange(cur, eclass[..], i, hi + 1)
      invariant CarriedUp(cur, eclass[..], j - g, hi, g) == old(CarriedUp(fmap[..], eclass[..], i, hi, g))
    {
      cur := Swap(cur, j - g, j);
      fmap[j - g] := fmap[j];
      j := j + g;
    }
    fmap[j - g] := tmp;
    assert fmap[..] == cur;
  }

  /** g is f with lo..hi-1 reordered, still naming entries of e there. */
  ghost predicate Shuffled(f: seq<int>, g: seq<int>, e: seq<int>, lo: int, hi: int)
    requires 0 <= lo <= hi <= |f|
  {
    Rearranged(f, g, lo, hi) && InRange(g, e, lo, hi)
  }

  lemma ShuffledRefl(f: seq<int>, e: seq<int>, lo: int, hi: int)
    requires 0 <= lo <= hi <= |f| && InRange(f, e, lo, hi)
    ensures Shuffled(f, f, e, lo, hi)
  {
  }

  lemma ShuffledThen(f: seq<int>, g: seq<int>, h: seq<int>, e: seq<int>, lo: int, hi: int, lo': int, hi': int)
    requires 0 <= lo <= lo' <= hi' <= hi <= |f|
    requires Shuffled(f, g, e, lo, hi) && Rearranged(g, h, lo', hi')
    ensures Shuffled(f, h, e, lo, hi)
  {
    RearrangedWiden(g, h, lo', hi', lo, hi);
    RearrangedTrans(f, g, h, lo, hi);
    forall i | lo <= i < hi ensures 0 <= h[i] < |e| {
      var j := RearrangedSource(g, h, lo, hi, i);
    }
  }

  lemma ShuffledSwap(f: seq<int>, g: seq<int>, e: seq<int>, lo: int, hi: int, i: int, j: int)
    requires 0 <= lo <= i < hi <= |f| && lo <= j < hi
    requires Shuffled(f, g, e, lo, hi)
    ensures Shuffled(f, Swap(g, i, j), e, lo, hi)
  {
    SwapRearranges(g, i, j, lo, hi);
    ShuffledThen(f, g, Swap(g, i, j), e, lo, hi, lo, hi);
  }

  /** One insertion pass over lo..hi with gap g. */
  method InsertionPass(fmap: array<int>, eclass: array<int>, lo: int, hi: int, g: nat)
    requires fmap != eclass && g >= 1
    requires 0 <= lo <= hi + 1 <= fmap.Length
    requires InRange(fmap[..], eclass[..], lo, hi + 1)
    modifies fmap
    ensures Shuffled(old(fmap[..]), fmap[..], eclass[..], lo, hi + 1)
    ensures g == 1 ==> SortedByClass(fmap[..], eclass[..], lo, hi + 1)
  {
    ghost var f0 := fmap[..];
    ghost var e := eclass[..];
    var i := hi - g;
    ShuffledRefl(f0, e, lo, hi + 1);
    while i >= lo
      invariant i <= hi - g && eclass[..] == e
      invariant g == 1 && lo <= hi ==> lo - 1 <= i
      invariant Shuffled(f0, fmap[..], e, lo, hi + 1)
      invariant g == 1 && lo <= hi ==> SortedByClass(fmap[..], e, i + 1, hi + 1)
    {
      ghost var f := fmap[..];
      CarryUp(fmap, eclass, i, hi, g);
      CarriedUpRearranges(f, e, i, hi, g);
      ShuffledThen(f0, f, fmap[..], e, lo, hi + 1, i, hi + 1);
      if g == 1 { CarriedUpSorted(f, e, i, hi); }
      i := i - 1;
    }
  }

  method SimpleSort(fmap: array<int>, eclass: array<int>, lo: int, hi: int)
    requires fmap != eclass
    requires 0 <= lo <= hi + 1 <= fmap.Length
    requires InRange(fmap[..], eclass[..], lo, hi + 1)
    modifies fmap
    ensures Shuffled(old(fmap[..]), fmap[..], eclass[..], lo, hi + 1)
    ensures SortedByClass(fmap[..], eclass[..], lo, hi + 1)
  {
    ghost var f0 := fmap[..];
    ghost var e := eclass[..];
    ShuffledRefl(f0, e, lo, hi + 1);
    if lo == hi { return; }
    if hi - lo > 3 {
      InsertionPass(fmap, eclass, lo, hi, 4);
    }
    ghost var f1 := fmap[..];
    InsertionPass(fmap, eclass, lo, hi, 1);
    ShuffledThen(f0, f1, fmap[..], e, lo, hi + 1, lo, hi + 1);
  }

  /** f with the n entries from p1 and the n from p2 exchanged. */
  method VecSwap(fmap: array<int>, p1: nat, p2: nat, n: nat, ghost f0: seq<int>, ghost e: seq<int>, ghost lo: int, ghost hi: int)
    requires p1 + n <= p2 && p2 + n <= fmap.Length
    requires 0 <= lo <= p1 && p2 + n <= hi <= fmap.Length && |f0| == fmap.Length
    requires Shuffled(f0, fmap[..], e, lo, hi)
    modifies fmap
    ensures forall t :: p1 <= t < p1 + n ==> fmap[t] == old(fmap[t + (p2 - p1)])
    ensures forall t :: p2 <= t < p2 + n ==> fmap[t] == old(fmap[t - (p2 - p1)])
    ensures forall t :: 0 <= t < p1 || p1 + n <= t < p2 || p2 + n <= t < fmap.Length ==> fmap[t] == old(fmap[t])
    ensures Shuffled(f0, fmap[..], e, lo, hi)
  {
    var k := 0;
    while k < n
      invariant 0 <= k <= n
      invariant forall t :: p1 <= t < p1 + k ==> fmap[t] == old(fmap[t + (p2 - p1)])
      invariant forall t :: p2 <= t < p2 + k ==> fmap[t] == old(fmap[t - (p2 - p1)])
      invariant forall t :: 0 <= t < p1 || p1 + k <= t < p2 || p2 + k <= t < fmap.Length ==> fmap[t] == old(fmap[t])
      invariant Shuffled(f0, fmap[..], e, lo, hi)
    {
      ghost var f := fmap[..];
      fmap[p1 + k], fmap[p2 + k] := fmap[p2 + k], fmap[p1 + k];
      assert p1 + k + (p2 - p1) == p2 + k;
      assert fmap[..] == Swap(f, p1 + k, p2 + k);
      ShuffledSwap(f0, f, e, lo, hi, p1 + k, p2 + k);
      k := k + 1;
    }
  }

  // ----- three-way partition

  /** lo..ltLo-1 and gtHi+1..hi equal med, ltLo..unLo-1 are below it, unHi+1..gtHi above it. */
  ghost predicate Parts(f: seq<int>, e: seq<int>, med: int,
                        lo: int, ltLo: int, unLo: int, unHi: int, gtHi: int, hi: int)
    requires InRange(f, e, lo, hi + 1)
  {
    && lo <= ltLo <= unLo <= unHi + 1 <= gtHi + 1 <= hi + 1
    && (forall t :: lo <= t < ltLo ==> e[f[t]] == med)
    && (forall t :: ltLo <= t < unLo ==> e[f[t]] < med)
    && (forall t :: unHi < t <= gtHi ==> e[f[t]] > med)
    && (forall t :: gtHi < t <= hi ==> e[f[t]] == med)
  }

  /** Entry x of e is what key holds d places on. */
  ghost predicate Keys(key: seq<int>, d: nat, e: seq<int>)
  {
    d + |e| <= |key| && forall x :: 0 <= x < |e| ==> key[d + x] == e[x]
  }

  method ScanUp(fmap: array<int>, key: array<int>, d: nat, ghost e: seq<int>, med: int, ghost f0: seq<int>,
                lo: int, ltLo0: int, unLo0: int, unHi: int, ghost gtHi: int, ghost hi: int)
    returns (ltLo: int, unLo: int)
    requires fmap != key && Keys(key[..], d, e) && |f0| == fmap.Length && 0 <= lo <= hi < fmap.Length
    requires Shuffled(f0, fmap[..], e, lo, hi + 1)
    requires Parts(fmap[..], e, med, lo, ltLo0, unLo0, unHi, gtHi, hi)
    modifies fmap
    ensures Shuffled(f0, fmap[..], e, lo, hi + 1)
    ensures Parts(fmap[..], e, med, lo, ltLo, unLo, unHi, gtHi, hi)
    ensures unLo0 <= unLo <= unHi ==> e[fmap[unLo]] > med
    ensures unLo0 <= unLo
  {
    ltLo, unLo := ltLo0, unLo0;
    while unLo <= unHi && key[d + fmap[unLo]] <= med
      invariant unLo0 <= unLo && Keys(key[..], d, e)
      invariant Shuffled(f0, fmap[..], e, lo, hi + 1)
      invariant Parts(fmap[..], e, med, lo, ltLo, unLo, unHi, gtHi, hi)
    {
      if key[d + fmap[unLo]] == med {
        ghost var f := fmap[..];
        fmap[unLo], fmap[ltLo] := fmap[ltLo], fmap[unLo];
        assert fmap[..] == Swap(f, unLo, ltLo);
        ShuffledSwap(f0, f, e, lo, hi + 1, unLo, ltLo);
        ltLo := ltLo + 1;
      }
      unLo := unLo + 1;
    }
  }

  method ScanDown(fmap: array<int>, key: array<int>, d: nat, ghost e: seq<int>, med: int, ghost f0: seq<int>,
                  ghost lo: int, ghost ltLo: int, unLo: int, unHi0: int, gtHi0: int, hi: int)
    returns (unHi: int, gtHi: int)
    requires fmap != key && Keys(key[..], d, e) && |f0| == fmap.Length && 0 <= lo <= hi < fmap.Length
    requires Shuffled(f0, fmap[..], e, lo, hi + 1)
    requires Parts(fmap[..], e, med, lo, ltLo, unLo, unHi0, gtHi0, hi)
    modifies fmap
    ensures Shuffled(f0, fmap[..], e, lo, hi + 1)
    ensures Parts(fmap[..], e, med, lo, ltLo, unLo, unHi, gtHi, hi)
    ensures unLo <= unHi ==> e[fmap[unHi]] < med && fmap[unLo] == old(fmap[unLo])
    ensures unHi <= unHi0
  {
    hide Rearranged;
    unHi, gtHi := unHi0, gtHi0;
    while unLo <= unHi && key[d + fmap[unHi]] >= med
      invariant unHi <= unHi0 && Keys(key[..], d, e)
      invariant Shuffled(f0, fmap[..], e, lo, hi + 1)
      invariant Parts(fmap[..], e, med, lo, ltLo, unLo, unHi, gtHi, hi)
      invariant unLo <= unHi ==> fmap[unLo] == old(fmap[unLo])
    {
      if key[d + fmap[unHi]] == med {
        ghost var f := fmap[..];
        fmap[unHi], fmap[gtHi] := fmap[gtHi], fmap[unHi];
        assert fmap[..] == Swap(f, unHi, gtHi);
        ShuffledSwap(f0, f, e, lo, hi + 1, unHi, gtHi);
        gtHi := gtHi - 1;
      }
      unHi := unHi - 1;
    }
  }

  /** The two scans and the exchange, until the unexamined stretch is empty. */
  method Partition(fmap: array<int>, key: array<int>, d: nat, ghost e: seq<int>, med: int, lo: int, hi: int)
    returns (ltLo: int, unLo: int, unHi: int, gtHi: int)
    requires fmap != key && Keys(key[..], d, e) && 0 <= lo <= hi < fmap.Length
    requires InRange(fmap[..], e, lo, hi + 1)
    modifies fmap
    ensures Shuffled(old(fmap[..]), fmap[..], e, lo, hi + 1)
    ensures Parts(fmap[..], e, med, lo, ltLo, unLo, unHi, gtHi, hi)
    ensures unHi == unLo - 1
  {
    hide InRange, Keys;
    ghost var f0 := fmap[..];
    ltLo, unLo, unHi, gtHi := lo, lo, hi, hi;
    while true
      invariant Keys(key[..], d, e)
      invariant Shuffled(f0, fmap[..], e, lo, hi + 1)
      invariant Parts(fmap[..], e, med, lo, ltLo, unLo, unHi, gtHi, hi)
      decreases unHi - unLo + 1
    {
      ltLo, unLo := ScanUp(fmap, key, d, e, med, f0, lo, ltLo, unLo, unHi, gtHi, hi);
      unHi, gtHi := ScanDown(fmap, key, d, e, med, f0, lo, ltLo, unLo, unHi, gtHi, hi);
      if unLo > unHi { return; }
      ghost var f := fmap[..];
      fmap[unLo], fmap[unHi] := fmap[unHi], fmap[unLo];
      assert fmap[..] == Swap(f, unLo, unHi);
      ShuffledSwap(f0, f, e, lo, hi + 1, unLo, unHi);
      unLo, unHi := unLo + 1, unHi - 1;
    }
  }

  /** The stretch lo..hi falls into below, equal to, and above med: lo..n, n+1..m-1, m..hi. */
  ghost predicate Split3(f: seq<int>, e: seq<int>, med: int, lo: int, n: int, m: int, hi: int)
    requires InRange(f, e, lo, hi + 1)
  {
    && lo <= n + 1 <= m <= hi + 1
    && (forall t :: lo <= t <= n ==> e[f[t]] < med)
    && (forall t :: n < t < m ==> e[f[t]] == med)
    && (forall t :: m <= t <= hi ==> e[f[t]] > med)
  }

  /** Partition, then both equal ends moved to the middle. */
  method PartitionAround(fmap: array<int>, key: array<int>, d: nat, ghost e: seq<int>, med: int, lo: int, hi: int)
    returns (allEqual: bool, n: int, m: int)
    requires fmap != key && Keys(key[..], d, e) && 0 <= lo <= hi < fmap.Length
    requires InRange(fmap[..], e, lo, hi + 1)
    modifies fmap
    ensures Shuffled(old(fmap[..]), fmap[..], e, lo, hi + 1)
    ensures allEqual ==> forall t :: lo <= t <= hi ==> e[fmap[t]] == med
    ensures !allEqual ==> Split3(fmap[..], e, med, lo, n, m, hi)
  {
    hide Rearranged;
    ghost var f0 := fmap[..];
    var ltLo, unLo, unHi, gtHi := Partition(fmap, key, d, e, med, lo, hi);
    allEqual, n, m := false, 0, 0;
    if gtHi < ltLo { allEqual := true; return; }
    n := if ltLo - lo < unLo - ltLo then ltLo - lo else unLo - ltLo;
    VecSwap(fmap, lo, unLo - n, n, f0, e, lo, hi + 1);
    m := if hi - gtHi < gtHi - unHi then hi - gtHi else gtHi - unHi;
    VecSwap(fmap, unLo, hi - m + 1, m, f0, e, lo, hi + 1);
    n := lo + unLo - ltLo - 1;
    m := hi - (gtHi - unHi) + 1;
  }

  // ----- the explicit stack

  datatype Frame = Frame(lo: int, hi: int)

  ghost predicate StackOk(st: seq<Frame>, lo: int, hi: int)
  {
    && (forall i :: 0 <= i < |st| ==> lo <= st[i].lo <= st[i].hi + 1 <= hi + 1)
    && (forall i, j :: 0 <= i < j < |st| ==> st[i].hi < st[j].lo || st[j].hi < st[i].lo)
  }

  /** Some frame still to be sorted holds both positions. */
  ghost predicate Pending(st: seq<Frame>, p: int, q: int)
  {
    exists i :: 0 <= i < |st| && st[i].lo <= p && q <= st[i].hi
  }

  /** Everything is in order except inside the pending frames. */
  ghost predicate OrderedExcept(f: seq<int>, e: seq<int>, st: seq<Frame>, lo: int, hi: int)
    requires InRange(f, e, lo, hi + 1)
  {
    forall p, q :: lo <= p < q <= hi ==> e[f[p]] <= e[f[q]] || Pending(st, p, q)
  }

  /** Settling the top frame x down to the frames `more` settles the whole stretch down to the rest and those. */
  lemma SettleTop(f: seq<int>, g: seq<int>, e: seq<int>, rest: seq<Frame>, x: Frame, more: seq<Frame>, lo: int, hi: int)
    requires 0 <= lo <= hi + 1 <= |f| && InRange(f, e, lo, hi + 1)
    requires StackOk(rest + [x], lo, hi) && OrderedExcept(f, e, rest + [x], lo, hi)
    requires lo <= x.lo <= x.hi + 1 <= hi + 1 && Shuffled(f, g, e, x.lo, x.hi + 1)
    requires forall p, q :: x.lo <= p < q <= x.hi ==> e[g[p]] <= e[g[q]] || Pending(more, p, q)
    ensures Shuffled(f, g, e, lo, hi + 1)
    ensures OrderedExcept(g, e, rest + more, lo, hi)
  {
    var k := |rest|;
    assert (rest + [x])[k] == x;
    RearrangedSorted(f, g, e, lo, hi + 1, x.lo, x.hi + 1);
    forall p, q | lo <= p < q <= hi ensures e[g[p]] <= e[g[q]] || Pending(rest + more, p, q) {
      if x.lo <= p && q <= x.hi {
        if Pending(more, p, q) {
          var i :| 0 <= i < |more| && more[i].lo <= p && q <= more[i].hi;
          assert (rest + more)[k + i] == more[i];
        }
      } else {
        var p', q' := p, q;
        if x.lo <= p <= x.hi { p' := RearrangedSource(f, g, x.lo, x.hi + 1, p); }
        if x.lo <= q <= x.hi { q' := RearrangedSource(f, g, x.lo, x.hi + 1, q); }
        assert p' < q' && g[p] == f[p'] && g[q] == f[q'];
        if Pending(rest + [x], p', q') {
          var i :| 0 <= i < |rest + [x]| && (rest + [x])[i].lo <= p' && q' <= (rest + [x])[i].hi;
          assert i < k;
          assert (rest + more)[i] == rest[i] == (rest + [x])[i];
          assert p' == p && q' == q;
        }
      }
    }
  }

  lemma RearrangedSorted(f: seq<int>, g: seq<int>, e: seq<int>, lo: int, hi: int, lo': int, hi': int)
    requires 0 <= lo <= lo' <= hi' <= hi <= |f| && InRange(f, e, lo, hi) && Rearranged(f, g, lo', hi')
    ensures Shuffled(f, g, e, lo, hi)
  {
    ShuffledRefl(f, e, lo, hi);
    ShuffledThen(f, f, g, e, lo, hi, lo', hi');
  }

  // ----- how deep the stack gets, and why the loop ends

  /** n halved i times. */
  function Halved(n: nat, i: nat): nat
    decreases i
  {
    if i == 0 then n else Halved(n / 2, i - 1)
  }

  lemma {:induction false} HalvedStep(n: nat, i: nat)
    ensures Halved(n, i + 1) == Halved(n, i) / 2
    decreases i
  {
    if i > 0 { HalvedStep(n / 2, i - 1); }
  }

  lemma {:induction false} HalvedBound(n: nat, i: nat, k: nat)
    requires n < Pow2(k) && Halved(n, i) >= 1
    ensures i < k
    decreases i
  {
    if k == 0 {
      HalvedZero(i);
    } else if i > 0 {
      HalvedBound(n / 2, i - 1, k - 1);
    }
  }

  lemma HalvedZero(i: nat)
    ensures Halved(0, i) == 0
  {
  }

  /** Frame i of the stack holds at most size / 2^i positions. */
  ghost predicate Shallow(st: seq<Frame>, size: nat)
  {
    forall i :: 0 <= i < |st| ==> st[i].hi - st[i].lo + 1 <= Halved(size, i)
  }

  /** Twice the positions still pending, and one for each frame. */
  function Work(st: seq<Frame>): (r: int)
  {
    if st == [] then 0
    else var x := st[|st| - 1]; Work(st[..|st| - 1]) + 2 * (x.hi - x.lo + 1) + 1
  }

  lemma {:induction false} WorkNat(st: seq<Frame>, lo: int, hi: int)
    requires StackOk(st, lo, hi)
    ensures Work(st) >= 0
  {
    if st != [] { WorkNat(st[..|st| - 1], lo, hi); }
  }

  lemma WorkPush(st: seq<Frame>, x: Frame)
    ensures Work(st + [x]) == Work(st) + 2 * (x.hi - x.lo + 1) + 1
  {
    assert (st + [x])[..|st|] == st;
  }

  lemma InRangePart(f: seq<int>, e: seq<int>, lo: int, hi: int, lo': int, hi': int)
    requires InRange(f, e, lo, hi) && lo <= lo' && hi' <= hi
    ensures InRange(f, e, lo', hi')
  {
  }

  /** Once the top frame is split around a value that occurs in it, the two outer parts are what is left to do. */
  lemma SplitPending(g: seq<int>, e: seq<int>, med: int, x: Frame, n: int, m: int, more: seq<Frame>)
    requires InRange(g, e, x.lo, x.hi + 1) && Split3(g, e, med, x.lo, n, m, x.hi)
    requires more == [Frame(x.lo, n), Frame(m, x.hi)] || more == [Frame(m, x.hi), Frame(x.lo, n)]
    ensures forall p, q :: x.lo <= p < q <= x.hi ==> e[g[p]] <= e[g[q]] || Pending(more, p, q)
  {
    var a, b := Frame(x.lo, n), Frame(m, x.hi);
    assert (more[0] == a && more[1] == b) || (more[0] == b && more[1] == a);
    forall p, q | x.lo <= p < q <= x.hi ensures e[g[p]] <= e[g[q]] || Pending(more, p, q) {
      if q <= n || m <= p {
        assert Pending(more, p, q);
      }
    }
  }

  lemma SplitNonEmptyMiddle(f: seq<int>, g: seq<int>, e: seq<int>, med: int, x: Frame, n: int, m: int, w: int)
    requires 0 <= x.lo <= x.hi < |f| && Shuffled(f, g, e, x.lo, x.hi + 1) && Split3(g, e, med, x.lo, n, m, x.hi)
    requires x.lo <= w <= x.hi && 0 <= f[w] < |e| && e[f[w]] == med
    ensures n + 1 < m
  {
    OccPositive(f, x.lo, x.hi + 1, w);
    assert Occ(g, x.lo, x.hi + 1, f[w]) > 0;
    var v := OccWitness(g, x.lo, x.hi + 1, f[w]);
  }

  /** Replacing the top frame by its two outer parts, the larger below, keeps the stack disjoint and shallow. */
  lemma PushBoth(rest: seq<Frame>, x: Frame, big: Frame, small: Frame, lo: int, hi: int, size: nat)
    requires StackOk(rest + [x], lo, hi) && Shallow(rest + [x], size)
    requires x.lo <= big.lo <= big.hi + 1 <= x.hi + 1 && x.lo <= small.lo <= small.hi + 1 <= x.hi + 1
    requires big.hi < small.lo || small.hi < big.lo
    requires small.hi - small.lo <= big.hi - big.lo
    requires (big.hi - big.lo + 1) + (small.hi - small.lo + 1) < x.hi - x.lo + 1
    ensures StackOk(rest + [big, small], lo, hi) && Shallow(rest + [big, small], size)
    ensures Work(rest + [big, small]) < Work(rest + [x])
  {
    hide Work;
    var k := |rest|;
    var st := rest + [big, small];
    assert (rest + [x])[k] == x && st[k] == big && st[k + 1] == small;
    forall i | 0 <= i < k ensures (rest + [x])[i] == rest[i] == st[i] {}
    HalvedStep(size, k);
    WorkPush(rest, x);
    WorkPush(rest, big);
    WorkPush(rest + [big], small);
    assert st == rest + [big] + [small];
  }

  lemma PopOk(rest: seq<Frame>, x: Frame, lo: int, hi: int, size: nat)
    requires StackOk(rest + [x], lo, hi) && Shallow(rest + [x], size)
    ensures StackOk(rest, lo, hi) && Shallow(rest, size) && lo <= x.lo <= x.hi + 1 <= hi + 1
    ensures Work(rest) < Work(rest + [x]) && 0 <= Work(rest)
    ensures x.hi - x.lo >= SMALL_THRESH ==> Halved(size, |rest|) > SMALL_THRESH
  {
    assert (rest + [x])[|rest|] == x;
    forall i | 0 <= i < |rest| ensures (rest + [x])[i] == rest[i] {}
    WorkPush(rest, x);
    WorkNat(rest, lo, hi);
  }

  /** Every frame but the top two lies under a frame that was still large, so the stack stays far below its 100 slots. */
  ghost predicate DepthOk(depth: nat, size: nat)
  {
    depth >= 2 ==> Halved(size, depth - 2) > SMALL_THRESH
  }

  lemma DepthBound(depth: nat, size: nat, bits: nat)
    requires DepthOk(depth, size) && size < Pow2(bits) && bits >= 1
    ensures depth <= bits + 1
  {
    if depth >= 2 { HalvedBound(size, depth - 2, bits); }
  }

  lemma DepthPop(depth: nat, size: nat)
    requires DepthOk(depth + 1, size)
    ensures DepthOk(depth, size)
  {
    if depth >= 2 { HalvedStep(size, depth - 2); }
  }

  /** One turn of the loop on a large frame: split it around a pivot drawn by the source's generator. */
  method SplitTop(fmap: array<int>, eclass: array<int>, r3: int, ghost rest: seq<Frame>, x: Frame,
                  ghost lo: int, ghost hi: int)
    returns (allEqual: bool, n: int, m: int)
    requires fmap != eclass && 0 <= lo <= x.lo < x.hi <= hi < fmap.Length
    requires InRange(fmap[..], eclass[..], lo, hi + 1)
    requires StackOk(rest + [x], lo, hi) && OrderedExcept(fmap[..], eclass[..], rest + [x], lo, hi)
    modifies fmap
    ensures Shuffled(old(fmap[..]), fmap[..], eclass[..], lo, hi + 1)
    ensures allEqual ==> OrderedExcept(fmap[..], eclass[..], rest, lo, hi)
    ensures !allEqual ==> x.lo <= n + 1 < m <= x.hi + 1
    ensures !allEqual ==> OrderedExcept(fmap[..], eclass[..], rest + [Frame(x.lo, n), Frame(m, x.hi)], lo, hi)
    ensures !allEqual ==> OrderedExcept(fmap[..], eclass[..], rest + [Frame(m, x.hi), Frame(x.lo, n)], lo, hi)
  {
    ghost var f := fmap[..];
    ghost var e := eclass[..];
    var w := if r3 == 0 then x.lo else if r3 == 1 then (x.lo + x.hi) / 2 else x.hi;
    var med := eclass[fmap[w]];
    InRangePart(f, e, lo, hi + 1, x.lo, x.hi + 1);
    allEqual, n, m := PartitionAround(fmap, eclass, 0, e, med, x.lo, x.hi);
    ghost var g := fmap[..];
    if allEqual {
      SettleTop(f, g, e, rest, x, [], lo, hi);
      assert rest + [] == rest;
    } else {
      SplitNonEmptyMiddle(f, g, e, med, x, n, m, w);
      SplitPending(g, e, med, x, n, m, [Frame(x.lo, n), Frame(m, x.hi)]);
      SplitPending(g, e, med, x, n, m, [Frame(m, x.hi), Frame(x.lo, n)]);
      SettleTop(f, g, e, rest, x, [Frame(x.lo, n), Frame(m, x.hi)], lo, hi);
      SettleTop(f, g, e, rest, x, [Frame(m, x.hi), Frame(x.lo, n)], lo, hi);
    }
  }

  method SortTop(fmap: array<int>, eclass: array<int>, ghost rest: seq<Frame>, x: Frame, ghost lo: int, ghost hi: int)
    requires fmap != eclass && 0 <= lo <= x.lo <= x.hi + 1 <= hi + 1 <= fmap.Length
    requires InRange(fmap[..], eclass[..], lo, hi + 1)
    requires StackOk(rest + [x], lo, hi) && OrderedExcept(fmap[..], eclass[..], rest + [x], lo, hi)
    modifies fmap
    ensures Shuffled(old(fmap[..]), fmap[..], eclass[..], lo, hi + 1)
    ensures OrderedExcept(fmap[..], eclass[..], rest, lo, hi)
  {
    ghost var f := fmap[..];
    InRangePart(f, eclass[..], lo, hi + 1, x.lo, x.hi + 1);
    SimpleSort(fmap, eclass, x.lo, x.hi);
    SettleTop(f, fmap[..], eclass[..], rest, x, [], lo, hi);
    assert rest + [] == rest;
  }

  /** What holds whenever the loop of QSort3 comes round. */
  ghost predicate Underway(f0: seq<int>, f: seq<int>, e: seq<int>, stack: seq<Frame>, lo: int, hi: int, size: nat)
  {
    && 0 <= lo <= hi < |f0|
    && Shuffled(f0, f, e, lo, hi + 1)
    && StackOk(stack, lo, hi)
    && Shallow(stack, size)
    && DepthOk(|stack|, size)
    && OrderedExcept(f, e, stack, lo, hi)
  }

  /** One turn on a small frame. */
  method SmallTurn(fmap: array<int>, eclass: array<int>, rest: seq<Frame>, x: Frame,
                   ghost f0: seq<int>, ghost lo: int, ghost hi: int, ghost size: nat)
    requires fmap != eclass && fmap.Length == |f0| && x.hi - x.lo < SMALL_THRESH
    requires Underway(f0, fmap[..], eclass[..], rest + [x], lo, hi, size)
    modifies fmap
    ensures Underway(f0, fmap[..], eclass[..], rest, lo, hi, size) && Work(rest) < Work(rest + [x])
  {
    hide OrderedExcept, Shallow, StackOk, Shuffled, Underway, DepthOk, Halved, Work;
    ghost var f, e := fmap[..], eclass[..];
    UnderwayParts(f0, f, e, rest, x, lo, hi, size);
    PopOk(rest, x, lo, hi, size);
    DepthPop(|rest|, size);
    SortTop(fmap, eclass, rest, x, lo, hi);
    ShuffledTwice(f0, f, fmap[..], e, lo, hi + 1);
    UnderwayAgain(f0, fmap[..], e, rest, lo, hi, size);
  }

  /** One turn on a large one: nothing is left of it, or its two ends are, the smaller on top. */
  method LargeTurn(fmap: array<int>, eclass: array<int>, rest: seq<Frame>, x: Frame, r3: int,
                   ghost f0: seq<int>, ghost lo: int, ghost hi: int, ghost size: nat)
    returns (stack: seq<Frame>)
    requires fmap != eclass && fmap.Length == |f0| && x.hi - x.lo >= SMALL_THRESH
    requires Underway(f0, fmap[..], eclass[..], rest + [x], lo, hi, size)
    modifies fmap
    ensures Underway(f0, fmap[..], eclass[..], stack, lo, hi, size) && Work(stack) < Work(rest + [x])
  {
    hide OrderedExcept, Shallow, StackOk, Shuffled, Underway, DepthOk, Halved, Work;
    ghost var f, e := fmap[..], eclass[..];
    UnderwayParts(f0, f, e, rest, x, lo, hi, size);
    PopOk(rest, x, lo, hi, size);
    DepthPop(|rest|, size);
    var allEqual, n, m := SplitTop(fmap, eclass, r3, rest, x, lo, hi);
    ShuffledTwice(f0, f, fmap[..], e, lo, hi + 1);
    stack := rest;
    if !allEqual {
      if n - x.lo > x.hi - m {
        PushBoth(rest, x, Frame(x.lo, n), Frame(m, x.hi), lo, hi, size);
        stack := rest + [Frame(x.lo, n), Frame(m, x.hi)];
      } else {
        PushBoth(rest, x, Frame(m, x.hi), Frame(x.lo, n), lo, hi, size);
        stack := rest + [Frame(m, x.hi), Frame(x.lo, n)];
      }
      DepthPush(|rest|, size);
    }
    UnderwayAgain(f0, fmap[..], e, stack, lo, hi, size);
  }

  lemma DepthPush(depth: nat, size: nat)
    requires Halved(size, depth) > SMALL_THRESH
    ensures DepthOk(depth + 2, size)
  {
    hide Halved;
  }

  method Turn(fmap: array<int>, eclass: array<int>, rest: seq<Frame>, x: Frame, r0: int,
              ghost f0: seq<int>, ghost lo: int, ghost hi: int, ghost size: nat)
    returns (stack: seq<Frame>, r: int)
    requires fmap != eclass && fmap.Length == |f0|
    requires Underway(f0, fmap[..], eclass[..], rest + [x], lo, hi, size)
    modifies fmap
    ensures Underway(f0, fmap[..], eclass[..], stack, lo, hi, size)
    ensures Work(stack) < Work(rest + [x])
  {
    hide Underway, Work;
    r := r0;
    if x.hi - x.lo < SMALL_THRESH {
      SmallTurn(fmap, eclass, rest, x, f0, lo, hi, size);
      stack := rest;
    } else {
      r := (r * 7621 + 1) % 32768;
      stack := LargeTurn(fmap, eclass, rest, x, r % 3, f0, lo, hi, size);
    }
  }

  lemma ShuffledTwice(f: seq<int>, g: seq<int>, h: seq<int>, e: seq<int>, lo: int, hi: int)
    requires 0 <= lo <= hi <= |f| && Shuffled(f, g, e, lo, hi) && Shuffled(g, h, e, lo, hi)
    ensures Shuffled(f, h, e, lo, hi) && |h| == |f|
  {
    ShuffledThen(f, g, h, e, lo, hi, lo, hi);
  }

  lemma UnderwayParts(f0: seq<int>, f: seq<int>, e: seq<int>, rest: seq<Frame>, x: Frame, lo: int, hi: int, size: nat)
    requires Underway(f0, f, e, rest + [x], lo, hi, size)
    ensures 0 <= lo <= hi < |f0| && Shuffled(f0, f, e, lo, hi + 1) && StackOk(rest + [x], lo, hi) && Shallow(rest + [x], size)
    ensures DepthOk(|rest| + 1, size) && OrderedExcept(f, e, rest + [x], lo, hi) && |f| == |f0|
    ensures InRange(f, e, lo, hi + 1)
  {
    hide OrderedExcept, Shallow, StackOk;
  }

  lemma UnderwayAgain(f0: seq<int>, f: seq<int>, e: seq<int>, stack: seq<Frame>, lo: int, hi: int, size: nat)
    requires 0 <= lo <= hi < |f0| && Shuffled(f0, f, e, lo, hi + 1) && StackOk(stack, lo, hi) && Shallow(stack, size)
    requires DepthOk(|stack|, size) && OrderedExcept(f, e, stack, lo, hi)
    ensures Underway(f0, f, e, stack, lo, hi, size)
  {
    hide OrderedExcept, Shallow, StackOk, Shuffled, DepthOk;
  }

  /** fallbackQSort3. The stack never holds more than one frame over the number of bits in the size of the
      stretch, so the assertion that guards its 100 slots cannot fail on any block. */
  method QSort3(fmap: array<int>, eclass: array<int>, loSt: int, hiSt: int, ghost bits: nat)
    requires fmap != eclass
    requires 0 <= loSt <= hiSt < fmap.Length
    requires InRange(fmap[..], eclass[..], loSt, hiSt + 1)
    requires hiSt - loSt + 1 < Pow2(bits) && 1 <= bits < STACK_SIZE - 2
    modifies fmap
    ensures Shuffled(old(fmap[..]), fmap[..], eclass[..], loSt, hiSt + 1)
    ensures SortedByClass(fmap[..], eclass[..], loSt, hiSt + 1)
  {
    ghost var f0 := fmap[..];
    ghost var e := eclass[..];
    ghost var size := hiSt - loSt + 1;
    var r := 0;
    var stack := [Frame(loSt, hiSt)];
    StartOk(f0, e, loSt, hiSt);
    while stack != []
      invariant eclass[..] == e
      invariant Underway(f0, fmap[..], e, stack, loSt, hiSt, size)
      decreases Work(stack)
    {
      DepthBound(|stack|, size, bits);
      assert |stack| < STACK_SIZE - 1;
      WorkNat(stack, loSt, hiSt);
      assert stack == stack[..|stack| - 1] + [stack[|stack| - 1]];
      stack, r := Turn(fmap, eclass, stack[..|stack| - 1], stack[|stack| - 1], r, f0, loSt, hiSt, size);
    }
  }

  lemma StartOk(f: seq<int>, e: seq<int>, lo: int, hi: int)
    requires 0 <= lo <= hi < |f| && InRange(f, e, lo, hi + 1)
    ensures Underway(f, f, e, [Frame(lo, hi)], lo, hi, hi - lo + 1)
  {
    ShuffledRefl(f, e, lo, hi + 1);
    var st := [Frame(lo, hi)];
    assert st[0] == Frame(lo, hi);
    forall p, q | lo <= p < q <= hi ensures Pending(st, p, q) {
      assert st[0].lo <= p && q <= st[0].hi;
    }
  }
}
