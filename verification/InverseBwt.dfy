/** Undoing the Burrows-Wheeler transform, in the decoder's fast form (the tt array) and in its small form (20-bit
    links, pointer reversal and a search of cftab). */
module InverseBwt {
  import opened Permutations
  import opened Counting
  import opened Rotations

  // ----- the mathematics of the walk

  /** f lists the rotations of b in order, as block sorting leaves them. */
  ghost predicate Sorted(b: seq<byte>, f: seq<int>)
  {
    |f| == |b| > 0 && IsPermutation(f) && SortedBy(b, f, |b|)
  }

  /** The column the encoder transmits: the byte before each sorted rotation. */
  ghost predicate IsColumn(b: seq<byte>, f: seq<int>, col: seq<int>)
    requires Sorted(b, f)
  {
    |col| == |b| && forall i :: 0 <= i < |b| ==> col[i] == b[Prev(|b|, f[i])]
  }

  ghost predicate IsMap(p: seq<int>)
  {
    forall r :: 0 <= r < |p| ==> 0 <= p[r] < |p|
  }

  ghost predicate LinksBack(col: seq<int>, p: seq<int>, i: int)
    requires AllBytes(col)
  {
    0 <= i < |col| && 0 <= Slot(col, i) < |p| && p[Slot(col, i)] == i
  }

  ghost predicate LinksOut(col: seq<int>, p: seq<int>, r: int)
    requires AllBytes(col)
  {
    0 <= r < |p| && 0 <= p[r] < |col| && Slot(col, p[r]) == r
  }

  /** p undoes Slot: the map T^-1 the decoder follows. */
  ghost predicate IsInverse(col: seq<int>, p: seq<int>)
    requires AllBytes(col)
  {
    && |p| == |col| && IsMap(p)
    && (forall i :: 0 <= i < |col| ==> LinksBack(col, p, i))
    && (forall r :: 0 <= r < |p| ==> LinksOut(col, p, r))
  }

  lemma InverseExists(col: seq<int>) returns (p: seq<int>)
    requires AllBytes(col)
    ensures IsInverse(col, p) && IsPermutation(p)
  {
    var s := SlotsPermute(col);
    p := Inverse(s);
    forall i | 0 <= i < |col| ensures LinksBack(col, p, i) {
      assert s[i] == Slot(col, i) && p[s[i]] == i;
    }
    forall r | 0 <= r < |p| ensures LinksOut(col, p, r) {
      assert s[p[r]] == r;
    }
  }

  /** Two listings of the same rotations, both in order, agree rank by rank up to equal rotations. */
  lemma SortedListingsAgree(b: seq<byte>, p: seq<int>, q: seq<int>, r: nat)
    requires Sorted(b, p) && Sorted(b, q) && r < |b|
    ensures Cmp(b, p[r], q[r], |b|) == 0
  {
    if Cmp(b, p[r], q[r], |b|) < 0 {
      NotBelow(b, p, q, r);
    }
    CmpAnti(b, p[r], q[r], |b|);
    if Cmp(b, q[r], p[r], |b|) < 0 {
      NotBelow(b, q, p, r);
    }
  }

  lemma NotBelow(b: seq<byte>, p: seq<int>, q: seq<int>, r: nat)
    requires Sorted(b, p) && Sorted(b, q) && r < |b|
    ensures Cmp(b, p[r], q[r], |b|) >= 0
  {
    if Cmp(b, p[r], q[r], |b|) < 0 {
      // the r + 1 first rotations of p all come among the r first of q
      var p', q' := p[..r + 1], q[..r];
      var low, lower := set v | v in p', set v | v in q';
      forall x | x in low ensures x in lower {
        var i :| 0 <= i < |p'| && p'[i] == x;
        BelowRank(b, p, q, r, i);
      }
      DistinctCard(p');
      SetCardAtMost(q');
      SubsetCard(low, lower);
    }
  }

  lemma BelowRank(b: seq<byte>, p: seq<int>, q: seq<int>, r: nat, i: nat)
    requires Sorted(b, p) && Sorted(b, q) && i <= r < |b| && Cmp(b, p[r], q[r], |b|) < 0
    ensures p[i] in q[..r]
  {
    var n := |b|;
    if i < r { assert Cmp(b, p[i], p[r], n) <= 0; } else { CmpRefl(b, p[i], n); }
    CmpTrans(b, p[i], p[r], q[r], n);
    var j := PermutationHits(q, p[i]);
    if j >= r {
      if j > r { assert Cmp(b, q[r], q[j], n) <= 0; } else { CmpRefl(b, q[j], n); }
      CmpAnti(b, q[r], q[j], n);
    }
    assert q[..r][j] == p[i];
  }

  /** The rotations one step before the sorted ones, put in order of their first byte, stably: sorted again. */
  lemma ShiftedSorted(b: seq<byte>, f: seq<int>, col: seq<int>, p: seq<int>) returns (q: seq<int>)
    requires Sorted(b, f) && IsColumn(b, f, col) && AllBytes(col) && IsInverse(col, p)
    ensures Sorted(b, q)
    ensures forall r :: 0 <= r < |b| ==> q[r] == Prev(|b|, f[p[r]])
  {
    var n := |b|;
    q := seq(n, r requires 0 <= r < n => Prev(n, f[p[r]]));
    forall x | 0 <= x < n ensures x in q {
      var i := PermutationHits(f, Next(n, x));
      assert LinksBack(col, p, i);
      assert q[Slot(col, i)] == x;
    }
    HitsAllIsPermutation(q);
    forall r, s | 0 <= r < s < n ensures Cmp(b, q[r], q[s], n) <= 0 {
      var i, j := p[r], p[s];
      SlotOrder(col, j, i);
      assert LinksOut(col, p, r) && LinksOut(col, p, s);
      assert b[q[r]] == col[i] && b[q[s]] == col[j];
      if col[i] == col[j] {
        assert i < j;
        CmpPrefix(b, f[i], f[j], n - 1, n);
        assert Next(n, q[r]) == f[i] && Next(n, q[s]) == f[j];
      }
    }
  }

  /** The heart of the inversion: following p from a row moves one byte on in the block, up to equal rotations,
      whatever order the sort left equal rotations in. */
  lemma InverseStep(b: seq<byte>, f: seq<int>, col: seq<int>, p: seq<int>, r: nat, x: nat)
    requires Sorted(b, f) && IsColumn(b, f, col) && AllBytes(col) && IsInverse(col, p)
    requires r < |b| && x < |b| && Cmp(b, f[r], x, |b|) == 0
    ensures Cmp(b, f[p[r]], Next(|b|, x), |b|) == 0
    ensures col[p[r]] == b[x]
  {
    var n := |b|;
    var q := ShiftedSorted(b, f, col, p);
    SortedListingsAgree(b, f, q, r);
    EqualTrans(b, q[r], f[r], x);
    CmpFullEqual(b, q[r], x);
    assert Next(n, q[r]) == f[p[r]];
  }

  lemma EqualTrans(b: seq<byte>, x: nat, y: nat, z: nat)
    requires x < |b| && y < |b| && z < |b|
    requires Cmp(b, y, x, |b|) == 0 && Cmp(b, y, z, |b|) == 0
    ensures Cmp(b, x, z, |b|) == 0
  {
    CmpAnti(b, y, x, |b|);
    CmpAnti(b, y, z, |b|);
    CmpTrans(b, x, y, z, |b|);
    CmpTrans(b, z, y, x, |b|);
    CmpAnti(b, x, z, |b|);
  }

  // ----- cftab, and the search of it

  /** cftab[c] counts the bytes below c. */
  ghost predicate Starts(cftab: seq<int>, col: seq<int>)
  {
    |cftab| == 257 && AllBytes(col) && forall c :: 0 <= c <= 256 ==> cftab[c] == Below(col, c)
  }

  /** The decoder's check of the byte counts passes for counts taken from a block. */
  method CountsInRange(unzftab: array<int>, nblock: nat) returns (ok: bool)
    requires unzftab.Length == 256
    ensures ok <==> forall c :: 0 <= c < 256 ==> 0 <= unzftab[c] <= nblock
  {
    var i := 0;
    while i <= 255
      invariant 0 <= i <= 256 && forall c :: 0 <= c < i ==> 0 <= unzftab[c] <= nblock
    {
      if unzftab[i] < 0 || unzftab[i] > nblock { return false; }
      i := i + 1;
    }
    return true;
  }

  /** The decoder's check of the running totals: in range and never descending. */
  method StartsInOrder(cftab: array<int>, nblock: nat) returns (ok: bool)
    requires cftab.Length == 257
    ensures ok <==> (forall c :: 0 <= c <= 256 ==> 0 <= cftab[c] <= nblock)
                    && forall c :: 1 <= c <= 256 ==> cftab[c - 1] <= cftab[c]
  {
    var i := 0;
    while i <= 256
      invariant 0 <= i <= 257 && forall c :: 0 <= c < i ==> 0 <= cftab[c] <= nblock
    {
      if cftab[i] < 0 || cftab[i] > nblock { return false; }
      i := i + 1;
    }
    i := 1;
    while i <= 256
      invariant 1 <= i <= 257 && forall c :: 1 <= c < i ==> cftab[c - 1] <= cftab[c]
    {
      if cftab[i - 1] > cftab[i] { return false; }
      i := i + 1;
    }
    return true;
  }

  function Total(u: seq<int>, c: nat): int
    requires c <= |u|
  {
    if c == 0 then 0 else Total(u, c - 1) + u[c - 1]
  }

  method RunningTotals(unzftab: array<int>) returns (cftab: array<int>)
    requires unzftab.Length == 256
    ensures fresh(cftab) && cftab.Length == 257
    ensures forall c :: 0 <= c <= 256 ==> cftab[c] == Total(unzftab[..], c)
  {
    cftab := new int[257](_ => 0);
    var i := 1;
    while i <= 256
      invariant 1 <= i <= 257 && cftab[0] == 0
      invariant forall c :: 1 <= c < i ==> cftab[c] == unzftab[c - 1]
    {
      cftab[i] := unzftab[i - 1];
      i := i + 1;
    }
    i := 1;
    while i <= 256
      invariant 1 <= i <= 257
      invariant forall c :: 0 <= c < i ==> cftab[c] == Total(unzftab[..], c)
      invariant forall c :: i <= c <= 256 ==> cftab[c] == unzftab[c - 1]
    {
      cftab[i] := cftab[i] + cftab[i - 1];
      i := i + 1;
    }
  }

  /** Build cftab from the byte counts; the checks on it reject nothing that was counted from a block. */
  method BuildCftab(unzftab: array<int>, nblock: nat, ghost col: seq<int>) returns (ok: bool, cftab: array<int>)
    requires unzftab.Length == 256 && AllBytes(col) && nblock == |col|
    requires forall c :: 0 <= c < 256 ==> unzftab[c] == Occ(col, 0, nblock, c)
    ensures ok && fresh(cftab) && Starts(cftab[..], col)
  {
    cftab := RunningTotals(unzftab);
    forall c | 0 <= c <= 256 ensures Total(unzftab[..], c) == Below(col, c) {
      TotalsAreStarts(unzftab[..], col, c);
    }
    CountsFit(col);
    ok := CountsInRange(unzftab, nblock);
    if !ok { return; }
    ok := StartsInOrder(cftab, nblock);
  }

  lemma CountsFit(col: seq<int>)
    requires AllBytes(col)
    ensures forall c :: 0 <= c < 256 ==> Occ(col, 0, |col|, c) <= |col|
    ensures forall c :: 0 <= c <= 256 ==> Below(col, c) <= |col|
    ensures forall c :: 1 <= c <= 256 ==> Below(col, c - 1) <= Below(col, c)
  {
    BelowAll(col);
    forall c | 0 <= c <= 256
      ensures Below(col, c) <= |col| && (c < 256 ==> Occ(col, 0, |col|, c) <= |col|)
    {
      BelowMono(col, c, 256);
    }
  }

  lemma {:induction false} TotalsAreStarts(u: seq<int>, col: seq<int>, k: nat)
    requires |u| == 256 && k <= 256
    requires forall c :: 0 <= c < 256 ==> u[c] == Occ(col, 0, |col|, c)
    ensures Total(u, k) == Below(col, k)
  {
    if k > 0 { TotalsAreStarts(u, col, k - 1); }
  }

  /** BZ2_indexIntoF: which byte's stretch of the sorted column holds rank indx. */
  method IndexIntoF(indx: int, cftab: array<int>) returns (nb: int)
    requires cftab.Length == 257 && cftab[0] <= indx < cftab[256]
    ensures 0 <= nb < 256 && cftab[nb] <= indx < cftab[nb + 1]
  {
    nb := 0;
    var na := 256;
    while true
      invariant 0 <= nb && nb + 2 <= na <= 256
      invariant cftab[nb] <= indx < cftab[na]
      decreases na - nb
    {
      var mid := (nb + na) / 2;
      if indx >= cftab[mid] { nb := mid; } else { na := mid; }
      if na - nb == 1 { return; }
    }
  }

  // ----- the bytes a walk along p spells

  /** The row k links on from row o. */
  function Follow(p: seq<int>, o: nat, k: nat): (r: nat)
    requires IsMap(p) && o < |p|
    ensures r < |p|
  {
    if k == 0 then o else p[Follow(p, o, k - 1)]
  }

  /** Byte x of what the decoder hands out, for any column and any starting row. */
  function Spelled(p: seq<int>, col: seq<int>, o: nat, x: nat): int
    requires IsMap(p) && o < |p| == |col|
  {
    col[Follow(p, o, x + 1)]
  }

  /** The first n bytes of the walk. */
  function Walk(p: seq<int>, col: seq<int>, o: nat, n: nat): (r: seq<int>)
    requires IsMap(p) && o < |p| == |col|
    ensures |r| == n
  {
    if n == 0 then [] else Walk(p, col, o, n - 1) + [Spelled(p, col, o, n - 1)]
  }

  lemma {:induction false} FollowRow(b: seq<byte>, f: seq<int>, col: seq<int>, p: seq<int>, o: nat, k: nat)
    requires Sorted(b, f) && IsColumn(b, f, col) && AllBytes(col) && IsInverse(col, p)
    requires o < |b| && f[o] == 0 && k < |b|
    ensures Cmp(b, f[Follow(p, o, k)], k, |b|) == 0
    ensures Spelled(p, col, o, k) == b[k]
  {
    if k == 0 {
      CmpRefl(b, 0, |b|);
    } else {
      FollowRow(b, f, col, p, o, k - 1);
      InverseStep(b, f, col, p, Follow(p, o, k - 1), k - 1);
    }
    InverseStep(b, f, col, p, Follow(p, o, k), k);
  }

  /** The decoder's walk from origPtr spells the block, whatever order equal rotations were left in. */
  lemma {:induction false} WalkSpellsBlock(b: seq<byte>, f: seq<int>, col: seq<int>, p: seq<int>, o: nat, n: nat)
    requires Sorted(b, f) && IsColumn(b, f, col) && AllBytes(col) && IsInverse(col, p)
    requires o < |b| && f[o] == 0 && n <= |b|
    ensures Walk(p, col, o, n) == b[..n]
  {
    if n > 0 {
      WalkSpellsBlock(b, f, col, p, o, n - 1);
      FollowRow(b, f, col, p, o, n - 1);
    }
  }

  // ----- the fast form

  /** tt[r] carries the link p[r] above the byte col[r]. */
  ghost predicate Linked(tt: seq<int>, col: seq<int>, p: seq<int>)
  {
    |col| == |p| <= |tt| && AllBytes(col) && IsMap(p)
    && forall r :: 0 <= r < |p| ==> tt[r] == 256 * p[r] + col[r]
  }

  lemma OnlyLink(col: seq<int>, p: seq<int>, i: nat)
    requires AllBytes(col) && IsInverse(col, p) && i < |col|
    ensures forall r :: 0 <= r < |p| && r != Slot(col, i) ==> p[r] != i
  {
    forall r | 0 <= r < |p| && r != Slot(col, i) ensures p[r] != i {
      assert LinksOut(col, p, r);
    }
  }

  /** Thread the links through tt. Every `or` of the source meets a word whose upper bits are still clear, so it is
      an addition here. */
  method LinkFast(tt: array<int>, cftab: array<int>, nblock: nat, ghost col: seq<int>, ghost p: seq<int>)
    requires tt != cftab && nblock == |col| <= tt.Length
    requires Starts(cftab[..], col) && IsInverse(col, p)
    requires forall r :: 0 <= r < nblock ==> tt[r] == col[r]
    modifies tt, cftab
    ensures Linked(tt[..], col, p)
  {
    hide Below;
    var i := 0;
    assert cftab.Length == 257;
    while i < nblock
      invariant 0 <= i <= nblock
      invariant forall c :: 0 <= c < 256 ==> cftab[c] == Below(col, c) + Occ(col, 0, i, c)
      invariant forall r :: 0 <= r < nblock ==> tt[r] == (if p[r] < i then 256 * p[r] else 0) + col[r]
    {
      var uc := tt[i] % 256;
      assert uc == col[i];
      var k := cftab[uc];
      assert LinksBack(col, p, i) && k == Slot(col, i);
      OnlyLink(col, p, i);
      assert 0 <= tt[k] < 256;
      tt[k] := tt[k] + i * 256;
      cftab[uc] := cftab[uc] + 1;
      i := i + 1;
    }
  }

  /** The part of the decoder state that BZ_GET_FAST reads and moves. */
  class FastReader {
    const tt: array<int>
    const limit: nat
    var tPos: int

    /** The next byte handed out will be byte x of the walk from o. */
    ghost predicate At(col: seq<int>, p: seq<int>, o: nat, x: nat)
      reads this, tt
    {
      Linked(tt[..], col, p) && o < |p| <= limit && tPos == Follow(p, o, x + 1)
    }

    constructor (tt: array<int>, limit: nat, origPtr: nat, ghost col: seq<int>, ghost p: seq<int>)
      requires Linked(tt[..], col, p) && origPtr < |p| <= limit
      ensures this.tt == tt && this.limit == limit && At(col, p, origPtr, 0)
    {
      this.tt, this.limit := tt, limit;
      tPos := tt[origPtr] / 256;
      assert Follow(p, origPtr, 1) == p[Follow(p, origPtr, 0)];
    }

    /** BZ_GET_FAST. */
    method Get(ghost col: seq<int>, ghost p: seq<int>, ghost o: nat, ghost x: nat) returns (corrupt: bool, ch: int)
      requires At(col, p, o, x)
      modifies this
      ensures !corrupt && ch == Spelled(p, col, o, x) && At(col, p, o, x + 1)
    {
      if tPos >= limit { return true, 0; }
      assert tt[tPos] == 256 * p[tPos] + col[tPos];
      tPos := tt[tPos];
      ch := tPos % 256;
      tPos := tPos / 256;
      corrupt := false;
    }
  }

  // ----- the small form

  /** GET_LL4 and SET_LL4 on one byte: its low half is entry 0, its high half entry 1. */
  function HalfByte(h: int, k: nat): int
    requires k < 2
  {
    if k == 0 then h % 16 else h / 16
  }

  function WithHalfByte(h: int, k: nat, v: int): int
    requires k < 2
  {
    if k == 0 then h - h % 16 + v else h % 16 + v * 16
  }

  lemma HalfByteStored(h: int, k: nat, v: int)
    requires 0 <= h < 256 && k < 2 && 0 <= v < 16
    ensures var h' := WithHalfByte(h, k, v); 0 <= h' < 256 && HalfByte(h', k) == v && HalfByte(h', 1 - k) == HalfByte(h, 1 - k)
  {
  }

  /** The part of the decoder state used when smallDecompress is set: 20-bit links split over ll16 and half-bytes. */
  class SmallReader {
    const ll16: array<int>
    const ll4: array<int>
    const cftab: array<int>
    const limit: nat
    var tPos: int

    ghost predicate Shape(n: nat)
      reads ll4
    {
      && ll16 != ll4 && cftab != ll16 && cftab != ll4 && cftab.Length == 257
      && n <= ll16.Length && n <= 2 * ll4.Length && n <= limit
      && forall k :: 0 <= k < ll4.Length ==> 0 <= ll4[k] < 256
    }

    /** GET_LL */
    function LL(i: nat): int
      reads ll16, ll4
      requires i < ll16.Length && i < 2 * ll4.Length
    {
      ll16[i] + 65536 * HalfByte(ll4[i / 2], i % 2)
    }

    constructor (ll16: array<int>, ll4: array<int>, cftab: array<int>, limit: nat)
      ensures this.ll16 == ll16 && this.ll4 == ll4 && this.cftab == cftab && this.limit == limit
    {
      this.ll16, this.ll4, this.cftab, this.limit := ll16, ll4, cftab, limit;
    }

    /** SET_LL */
    method SetLL(i: nat, v: int, ghost n: nat)
      requires Shape(n) && i < n && 0 <= v < 0x10_0000
      modifies ll16, ll4
      ensures Shape(n) && LL(i) == v
      ensures forall k :: 0 <= k < n && k != i ==> LL(k) == old(LL(k)) && ll16[k] == old(ll16[k])
    {
      ll16[i] := v % 65536;
      HalfByteStored(ll4[i / 2], i % 2, v / 65536);
      ll4[i / 2] := WithHalfByte(ll4[i / 2], i % 2, v / 65536);
    }

    /** The loop that replaces each byte of the column by its link T. */
    method BuildT(nblock: nat, ghost col: seq<int>)
      requires Shape(nblock) && nblock == |col| <= 0x10_0000 && Starts(cftab[..], col)
      requires forall r :: 0 <= r < nblock ==> ll16[r] == col[r]
      modifies ll16, ll4
      ensures Shape(nblock) && forall r :: 0 <= r < nblock ==> LL(r) == Slot(col, r)
    {
      var cftabCopy := new int[257](i requires 0 <= i < 257 reads this, cftab => cftab[i]);
      var i := 0;
      while i < nblock
        invariant 0 <= i <= nblock && Shape(nblock)
        invariant forall c :: 0 <= c < 256 ==> cftabCopy[c] == Below(col, c) + Occ(col, 0, i, c)
        invariant forall r :: 0 <= r < i ==> LL(r) == Slot(col, r)
        invariant forall r :: i <= r < nblock ==> ll16[r] == col[r]
      {
        var uc := ll16[i];
        assert uc == col[i] && cftabCopy[uc] == Slot(col, i);
        SlotRange(col, i);
        SetLL(i, cftabCopy[uc], nblock);
        cftabCopy[uc] := cftabCopy[uc] + 1;
        i := i + 1;
      }
    }

    /** The links 0..|l|-1 are the entries of l. */
    ghost predicate Has(l: seq<int>)
      reads ll16, ll4
    {
      |l| <= ll16.Length && |l| <= 2 * ll4.Length && forall r :: 0 <= r < |l| ==> LL(r) == l[r]
    }

    /** The pointer reversal: T becomes T^-1 on the cycle through origPtr, which is all the walk will visit. */
    method Reverse(origPtr: nat, nblock: nat, ghost s: seq<int>, ghost cyc: seq<int>) returns (ghost l: seq<int>)
      requires Shape(nblock) && |s| == nblock <= 0x10_0000 && origPtr < nblock && IsCycle(s, cyc, origPtr)
      requires Has(s)
      modifies ll16, ll4
      ensures Shape(nblock) && |l| == nblock && Has(l) && ReversedTo(s, cyc, |cyc|, l)
    {
      var i := origPtr;
      var j := LL(i);
      ghost var k := 0;
      l := s;
      ReversalStart(s, cyc, origPtr);
      while true
        invariant 0 <= k < |cyc| && i == cyc[k] && j == At(cyc, k + 1)
        invariant Shape(nblock) && |l| == nblock && Has(l) && ReversedTo(s, cyc, k, l)
        decreases |cyc| - k
      {
        ReversalStep(s, cyc, k, l, origPtr);
        var tmp := LL(j);
        SetLL(j, i, nblock);
        l := l[j := i];
        i := j;
        j := tmp;
        k := k + 1;
        if i == origPtr { return; }
      }
    }

    /** On the rows still to be visited the links are the reversed ones, and cftab is the column's. */
    ghost predicate Ready(col: seq<int>, p: seq<int>, rows: set<int>)
      reads ll16, ll4, cftab
    {
      && |p| == |col| && Shape(|p|) && Starts(cftab[..], col) && AllBytes(col)
      && (forall r :: 0 <= r < |p| ==> LinksOut(col, p, r))
      && forall r :: r in rows ==> RowLinked(p, rows, r)
    }

    ghost predicate RowLinked(p: seq<int>, rows: set<int>, r: int)
      reads ll16, ll4
    {
      0 <= r < |p| && r < ll16.Length && r < 2 * ll4.Length && p[r] in rows && LL(r) == p[r]
    }

    /** BZ_GET_SMALL: the byte before row p[tPos], and on to that row. */
    method Get(ghost col: seq<int>, ghost p: seq<int>, ghost rows: set<int>) returns (corrupt: bool, ch: int)
      requires Ready(col, p, rows) && tPos in rows
      modifies this
      ensures !corrupt && tPos in rows && 0 <= old(tPos) < |p| && tPos == p[old(tPos)] && 0 <= tPos < |col| && ch == col[tPos]
    {
      assert RowLinked(p, rows, tPos);
      if tPos >= limit { return true, 0; }
      BelowAll(col);
      assert Below(col, 0) == 0;
      assert LinksOut(col, p, tPos);
      ch := IndexIntoF(tPos, cftab);
      OneStretch(col, p[tPos], ch);
      tPos := LL(tPos);
      corrupt := false;
    }

    method ReadAll(n: nat, ghost col: seq<int>, ghost p: seq<int>, ghost o: nat, ghost rows: set<int>)
      returns (corrupt: bool, out: seq<int>)
      requires Ready(col, p, rows) && tPos in rows && tPos == o < |p| == |col| && IsMap(p)
      modifies this
      ensures !corrupt && out == Walk(p, col, o, n)
    {
      out := [];
      corrupt := false;
      while |out| < n
        invariant 0 <= |out| <= n && !corrupt && tPos in rows && tPos == Follow(p, o, |out|)
        invariant out == Walk(p, col, o, |out|)
        decreases n - |out|
      {
        var ch;
        corrupt, ch := Get(col, p, rows);
        assert Spelled(p, col, o, |out|) == col[Follow(p, o, |out| + 1)];
        out := out + [ch];
      }
    }
  }

  /** Only one byte's stretch of the sorted column holds a slot. */
  lemma OneStretch(col: seq<int>, i: nat, c: nat)
    requires AllBytes(col) && i < |col| && Below(col, c) <= Slot(col, i) < Below(col, c + 1)
    ensures c == col[i]
  {
    SlotRange(col, i);
    if c < col[i] { BelowMono(col, c + 1, col[i]); }
    if col[i] < c { BelowMono(col, col[i] + 1, c); }
  }

  // ----- cycles of the forward map

  /** Entry k of a cyclic list. */
  function At(cyc: seq<int>, k: nat): int
    requires 0 < |cyc| && k <= |cyc|
  {
    if k == |cyc| then cyc[0] else cyc[k]
  }

  ghost predicate OnCycle(s: seq<int>, cyc: seq<int>, t: int)
  {
    0 <= t < |cyc| && 0 <= cyc[t] < |s| && s[cyc[t]] == At(cyc, t + 1)
  }

  /** cyc lists the cycle of s through o: each entry maps to the next, the last to o. */
  ghost predicate IsCycle(s: seq<int>, cyc: seq<int>, o: int)
  {
    && |cyc| > 0 && cyc[0] == o
    && (forall t :: 0 <= t < |cyc| ==> OnCycle(s, cyc, t))
    && forall t, u :: 0 <= t < u < |cyc| ==> cyc[t] != cyc[u]
  }

  /** After k reversals: entries 1..k point back, and entry 0 too once the cycle is closed. */
  ghost predicate ReversedAt(s: seq<int>, cyc: seq<int>, k: nat, l: seq<int>, t: int)
  {
    && 0 <= t < |cyc| && 0 <= cyc[t] < |s| == |l|
    && l[cyc[t]] == (if 1 <= t <= k then cyc[t - 1]
                     else if t == 0 && k == |cyc| then cyc[|cyc| - 1]
                     else s[cyc[t]])
  }

  ghost predicate ReversedTo(s: seq<int>, cyc: seq<int>, k: nat, l: seq<int>)
  {
    forall t :: 0 <= t < |cyc| ==> ReversedAt(s, cyc, k, l, t)
  }

  lemma ReversalStart(s: seq<int>, cyc: seq<int>, o: int)
    requires IsCycle(s, cyc, o)
    ensures ReversedTo(s, cyc, 0, s) && 0 <= o < |s| && s[o] == At(cyc, 1)
  {
    assert OnCycle(s, cyc, 0);
    forall t | 0 <= t < |cyc| ensures ReversedAt(s, cyc, 0, s, t) {
      assert OnCycle(s, cyc, t);
    }
  }

  lemma ReversalStep(s: seq<int>, cyc: seq<int>, k: nat, l: seq<int>, o: int)
    requires IsCycle(s, cyc, o) && k < |cyc| && ReversedTo(s, cyc, k, l) && |l| == |s|
    ensures var j := At(cyc, k + 1);
            && 0 <= j < |l| && 0 <= cyc[k] < |s|
            && ReversedTo(s, cyc, k + 1, l[j := cyc[k]])
            && (k + 1 < |cyc| ==> l[j] == At(cyc, k + 2) && j != o)
            && (k + 1 == |cyc| ==> j == o)
  {
    var m := if k + 1 < |cyc| then k + 1 else 0;
    var j := cyc[m];
    assert OnCycle(s, cyc, m) && OnCycle(s, cyc, k) && ReversedAt(s, cyc, k, l, m);
    var l', k' := l[j := cyc[k]], k + 1;
    forall t | 0 <= t < |cyc| ensures ReversedAt(s, cyc, k', l', t) {
      assert ReversedAt(s, cyc, k, l, t) && OnCycle(s, cyc, t);
      if t < m { assert cyc[t] != cyc[m]; } else if m < t { assert cyc[m] != cyc[t]; }
    }
  }

  lemma CycleThrough(s: seq<int>, o: nat) returns (cyc: seq<int>)
    requires IsPermutation(s) && o < |s|
    ensures IsCycle(s, cyc, o)
  {
    cyc := GrowCycle(s, o, [o]);
  }

  /** Going on along s from a stretch of distinct entries that starts at o closes the cycle at o. */
  lemma GrowCycle(s: seq<int>, o: nat, c: seq<int>) returns (cyc: seq<int>)
    requires IsPermutation(s) && o < |s|
    requires 0 < |c| <= |s| && c[0] == o
    requires forall t :: 0 <= t < |c| ==> 0 <= c[t] < |s|
    requires forall t :: 0 <= t < |c| - 1 ==> OnCycle(s, c, t)
    requires forall t, u :: 0 <= t < u < |c| ==> c[t] != c[u]
    ensures IsCycle(s, cyc, o)
    decreases |s| - |c|
  {
    var last := c[|c| - 1];
    var y := s[last];
    if y == o {
      cyc := c;
      assert OnCycle(s, c, |c| - 1);
    } else {
      forall t | 0 <= t < |c| ensures c[t] != y {
        if t > 0 {
          assert OnCycle(s, c, t - 1);
          if c[t - 1] < last { assert s[c[t - 1]] != s[last]; } else { assert s[last] != s[c[t - 1]]; }
        }
      }
      var c' := c + [y];
      DistinctFit(c', |s|);
      forall t | 0 <= t < |c'| - 1 ensures OnCycle(s, c', t) {
        if t < |c| - 1 { assert OnCycle(s, c, t); }
      }
      cyc := GrowCycle(s, o, c');
    }
  }

  lemma DistinctFit(c: seq<int>, n: nat)
    requires forall t :: 0 <= t < |c| ==> 0 <= c[t] < n
    requires forall t, u :: 0 <= t < u < |c| ==> c[t] != c[u]
    ensures |c| <= n
  {
    DistinctCard(c);
    var vals := set v | v in c;
    SubsetCard(vals, Range(0, n));
  }

  /** On the cycle of the forward map, its reversed links are the links of p. */
  lemma ReversedIsInverse(col: seq<int>, p: seq<int>, s: seq<int>, cyc: seq<int>, l: seq<int>, o: nat, r: int)
    requires AllBytes(col) && IsInverse(col, p) && |s| == |p| && o < |p|
    requires forall i :: 0 <= i < |s| ==> s[i] == Slot(col, i)
    requires IsCycle(s, cyc, o) && |l| == |s| && ReversedTo(s, cyc, |cyc|, l) && r in cyc
    ensures 0 <= r < |p| && l[r] == p[r] && p[r] in cyc
  {
    var t :| 0 <= t < |cyc| && cyc[t] == r;
    var m := if t == 0 then |cyc| - 1 else t - 1;
    assert ReversedAt(s, cyc, |cyc|, l, t) && OnCycle(s, cyc, m) && OnCycle(s, cyc, t);
    assert s[cyc[m]] == r && LinksBack(col, p, cyc[m]);
    assert l[r] == cyc[m];
  }

  lemma SlotsPermute(col: seq<int>) returns (s: seq<int>)
    requires AllBytes(col)
    ensures IsPermutation(s) && |s| == |col| && forall i :: 0 <= i < |s| ==> s[i] == Slot(col, i)
  {
    s := seq(|col|, i requires 0 <= i < |col| => Slot(col, i));
    forall i | 0 <= i < |col| ensures 0 <= s[i] < |col| {
      SlotRange(col, i);
    }
    forall i, j | 0 <= i < j < |col| ensures s[i] != s[j] {
      SlotOrder(col, i, j);
      SlotOrder(col, j, i);
    }
  }

  // ----- reading a whole block, either way

  /** BZ2_decompress's last step and then n times BZ_GET_FAST: the block's bytes, and what the walk goes on to. */
  method ReadFast(tt: array<int>, cftab: array<int>, limit: nat, nblock: nat, origPtr: nat, n: nat,
                  ghost col: seq<int>, ghost p: seq<int>) returns (corrupt: bool, out: seq<int>)
    requires tt != cftab && origPtr < nblock == |col| <= tt.Length && nblock <= limit
    requires Starts(cftab[..], col) && IsInverse(col, p)
    requires forall r :: 0 <= r < nblock ==> tt[r] == col[r]
    modifies tt, cftab
    ensures !corrupt && out == Walk(p, col, origPtr, n)
  {
    LinkFast(tt, cftab, nblock, col, p);
    var reader := new FastReader(tt, limit, origPtr, col, p);
    out := [];
    corrupt := false;
    while |out| < n
      invariant 0 <= |out| <= n && !corrupt
      invariant fresh(reader) && reader.tt == tt && reader.At(col, p, origPtr, |out|)
      invariant out == Walk(p, col, origPtr, |out|)
      decreases n - |out|
    {
      var ch;
      corrupt, ch := reader.Get(col, p, origPtr, |out|);
      out := out + [ch];
    }
  }

  /** The same with the small form: T, its reversal, then n times BZ_GET_SMALL. */
  method ReadSmall(ll16: array<int>, ll4: array<int>, cftab: array<int>, limit: nat, nblock: nat, origPtr: nat, n: nat,
                   ghost col: seq<int>, ghost p: seq<int>) returns (corrupt: bool, out: seq<int>)
    requires ll16 != ll4 && cftab != ll16 && cftab != ll4
    requires origPtr < nblock == |col| <= limit && nblock <= 0x10_0000
    requires nblock <= ll16.Length && nblock <= 2 * ll4.Length
    requires forall k :: 0 <= k < ll4.Length ==> 0 <= ll4[k] < 256
    requires Starts(cftab[..], col) && IsInverse(col, p)
    requires forall r :: 0 <= r < nblock ==> ll16[r] == col[r]
    modifies ll16, ll4
    ensures !corrupt && out == Walk(p, col, origPtr, n)
  {
    ghost var rows;
    var reader;
    reader, rows := PrepareSmall(ll16, ll4, cftab, limit, nblock, origPtr, col, p);
    corrupt, out := reader.ReadAll(n, col, p, origPtr, rows);
  }

  method PrepareSmall(ll16: array<int>, ll4: array<int>, cftab: array<int>, limit: nat, nblock: nat, origPtr: nat,
                      ghost col: seq<int>, ghost p: seq<int>) returns (reader: SmallReader, ghost rows: set<int>)
    requires ll16 != ll4 && cftab != ll16 && cftab != ll4
    requires origPtr < nblock == |col| <= limit && nblock <= 0x10_0000
    requires nblock <= ll16.Length && nblock <= 2 * ll4.Length
    requires forall k :: 0 <= k < ll4.Length ==> 0 <= ll4[k] < 256
    requires Starts(cftab[..], col) && IsInverse(col, p)
    requires forall r :: 0 <= r < nblock ==> ll16[r] == col[r]
    modifies ll16, ll4
    ensures fresh(reader) && reader.ll16 == ll16 && reader.ll4 == ll4 && reader.cftab == cftab
    ensures reader.Ready(col, p, rows) && reader.tPos == origPtr && reader.tPos in rows
  {
    reader := new SmallReader(ll16, ll4, cftab, limit);
    reader.BuildT(nblock, col);
    ghost var s := SlotsPermute(col);
    ghost var cyc := CycleThrough(s, origPtr);
    assert reader.Has(s);
    ghost var l := reader.Reverse(origPtr, nblock, s, cyc);
    reader.tPos := origPtr;
    rows := set r | r in cyc;
    assert cyc[0] in cyc;
    forall r | r in rows ensures reader.RowLinked(p, rows, r) {
      ReversedIsInverse(col, p, s, cyc, l, origPtr, r);
    }
  }

  /** Block sorting and its inverse: from the sorted rotations' column and the rank of the whole block, both forms
      read back exactly the block. */
  method RoundTrip(tt: array<int>, cftab: array<int>, limit: nat, nblock: nat, origPtr: nat,
                   ghost b: seq<byte>, ghost f: seq<int>, ghost col: seq<int>) returns (out: seq<int>)
    requires Sorted(b, f) && IsColumn(b, f, col) && nblock == |b| && origPtr < nblock && f[origPtr] == 0
    requires tt != cftab && nblock <= tt.Length && nblock <= limit
    requires Starts(cftab[..], col) && forall r :: 0 <= r < nblock ==> tt[r] == col[r]
    modifies tt, cftab
    ensures out == b
  {
    ghost var p := InverseExists(col);
    var corrupt;
    corrupt, out := ReadFast(tt, cftab, limit, nblock, origPtr, nblock, col, p);
    WalkSpellsBlock(b, f, col, p, origPtr, nblock);
    assert b[..nblock] == b;
  }
}
