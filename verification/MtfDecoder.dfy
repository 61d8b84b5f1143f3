/** The decoder's move-to-front list: 256 entries held as 16 windows of 16 inside a 4096-byte array, each window
    sliding down as symbols move to the front, all moved back up when the first reaches the bottom. */
module MtfDecoder {
  import opened Permutations
  import opened MtfSpec
  import opened SymbolReader

  const MTFA_SIZE := 4096
  const MTFL_SIZE := 16

  /** Windows lie one above the other inside the array. */
  ghost predicate Apart(base: seq<int>)
  {
    && |base| == 16 && 0 <= base[0] && base[15] + 16 <= MTFA_SIZE
    && forall v, w :: 0 <= v < w < 16 ==> base[v] + 16 <= base[w]
  }

  ghost predicate EntryIs(a: seq<int>, base: int, l: seq<int>, w: int, k: int)
  {
    0 <= base + k < |a| && 0 <= 16 * w + k < |l| && a[base + k] == l[16 * w + k]
  }

  /** Window w of the array is entries 16w..16w+15 of the list l. */
  ghost predicate WindowIs(a: seq<int>, base: int, l: seq<int>, w: int)
  {
    && 0 <= w < 16 && |l| == 256 && |a| == MTFA_SIZE && 0 <= base && base + 16 <= MTFA_SIZE
    && forall k :: 0 <= k < 16 ==> EntryIs(a, base, l, w, k)
  }

  /** The array and the window starts stand for the list l. */
  ghost predicate Shows(a: seq<int>, base: seq<int>, l: seq<int>)
  {
    && Apart(base) && |l| == 256 && |a| == MTFA_SIZE
    && forall w :: 0 <= w < 16 ==> WindowIs(a, base[w], l, w)
  }

  lemma WindowKept(a: seq<int>, a': seq<int>, base: int, l: seq<int>, w: int)
    requires WindowIs(a, base, l, w) && |a'| == |a|
    requires forall i :: base <= i < base + 16 ==> a'[i] == a[i]
    ensures WindowIs(a', base, l, w)
  {
    forall k | 0 <= k < 16 ensures EntryIs(a', base, l, w, k) { assert EntryIs(a, base, l, w, k); }
  }

  lemma WindowEqual(a: seq<int>, base: int, l: seq<int>, l': seq<int>, w: int)
    requires WindowIs(a, base, l, w) && |l'| == |l|
    requires forall k :: 16 * w <= k < 16 * w + 16 ==> l'[k] == l[k]
    ensures WindowIs(a, base, l', w)
  {
    forall k | 0 <= k < 16 ensures EntryIs(a, base, l', w, k) { assert EntryIs(a, base, l, w, k); }
  }

  class MtfList {
    const mtfa: array<int>
    const mtfbase: array<int>

    ghost predicate Valid(l: seq<int>)
      reads mtfa, mtfbase
    {
      && mtfa != mtfbase && mtfa.Length == MTFA_SIZE && mtfbase.Length == 16
      && Shows(mtfa[..], mtfbase[..], l) && mtfbase[0] > 0
    }

    /** MTF init: the windows at the top of the array, holding 0..255. */
    constructor ()
      ensures fresh(mtfa) && fresh(mtfbase) && Valid(Identity(256))
    {
      mtfa := new int[4096](_ => 0);
      mtfbase := new int[16](_ => 0);
      new;
      ghost var l := Identity(256);
      var kk := MTFA_SIZE - 1;
      var ii := 256 / MTFL_SIZE - 1;
      while ii >= 0
        invariant -1 <= ii <= 15 && kk == 3840 + 16 * ii + 15
        invariant forall w :: ii < w < 16 ==> mtfbase[w] == 3840 + 16 * w
        invariant forall t :: 3840 + 16 * (ii + 1) <= t < 4096 ==> mtfa[t] == t - 3840
      {
        var jj := MTFL_SIZE - 1;
        while jj >= 0
          invariant -1 <= jj <= 15 && kk == 3840 + 16 * ii + jj
          invariant forall w :: ii < w < 16 ==> mtfbase[w] == 3840 + 16 * w
          invariant forall t :: 3840 + 16 * ii + jj + 1 <= t < 4096 ==> mtfa[t] == t - 3840
        {
          mtfa[kk] := ii * MTFL_SIZE + jj;
          kk := kk - 1;
          jj := jj - 1;
        }
        mtfbase[ii] := kk + 1;
        assert mtfbase[ii] == 3840 + 16 * ii;
        ii := ii - 1;
      }
      forall w | 0 <= w < 16 ensures WindowIs(mtfa[..], mtfbase[..][w], l, w) {
        forall k | 0 <= k < 16 ensures EntryIs(mtfa[..], mtfbase[..][w], l, w, k) {}
      }
    }

    /** The front of the list: what a zero run repeats. */
    method Front(ghost l: seq<int>) returns (uc: int)
      requires Valid(l)
      ensures uc == l[0]
    {
      assert WindowIs(mtfa[..], mtfbase[..][0], l, 0);
      assert EntryIs(mtfa[..], mtfbase[..][0], l, 0, 0);
      uc := mtfa[mtfbase[0]];
    }

    /** nn < 16: the entry's move stays inside the first window. The source's four-at-a-time copies are one loop. */
    method MoveNear(nn: nat, ghost l: seq<int>) returns (uc: int)
      requires Valid(l) && nn < MTFL_SIZE
      modifies mtfa
      ensures uc == l[nn] && Valid(MoveToFront(l, nn))
    {
      ghost var a, base := mtfa[..], mtfbase[..];
      assert WindowIs(a, base[0], l, 0);
      var pp := mtfbase[0];
      uc := mtfa[pp + nn];
      assert EntryIs(a, base[0], l, 0, nn);
      var k := nn;
      while k > 0
        invariant 0 <= k <= nn
        invariant forall t :: pp + k < t <= pp + nn ==> mtfa[t] == a[t - 1]
        invariant forall t :: 0 <= t < MTFA_SIZE && !(pp + k < t <= pp + nn) ==> mtfa[t] == a[t]
      {
        mtfa[pp + k] := mtfa[pp + k - 1];
        k := k - 1;
      }
      mtfa[pp] := uc;
      NearShown(a, mtfa[..], base, l, nn);
    }

    /** nn >= 16: the entry leaves its window, every window below takes the last entry of the one before it, and the
        first makes room at its bottom. */
    method MoveFar(nn: nat, ghost l: seq<int>) returns (uc: int)
      requires Valid(l) && MTFL_SIZE <= nn < 256
      modifies mtfa, mtfbase
      ensures uc == l[nn]
      ensures mtfbase.Length == 16 && mtfa.Length == MTFA_SIZE && Shows(mtfa[..], mtfbase[..], MoveToFront(l, nn))
    {
      hide Apart, EntryIs;
      ghost var base0 := mtfbase[..];
      ghost var top := nn / MTFL_SIZE;
      ghost var a0 := mtfa[..];
      var lno := nn / MTFL_SIZE;
      uc := Gap(lno, nn % MTFL_SIZE, l);
      mtfbase[lno] := mtfbase[lno] + 1;
      GapShown(a0, mtfa[..], base0, l, nn);
      while lno > 0
        invariant 0 <= lno <= top && mtfbase.Length == 16
        invariant mtfbase[..] == Lowered(base0, top, lno)
        invariant Sliding(mtfa[..], base0, l, nn, lno)
      {
        mtfbase[lno] := mtfbase[lno] - 1;
        ghost var a := mtfa[..];
        SlideStep(a, base0, l, nn, lno);
        mtfa[mtfbase[lno]] := mtfa[mtfbase[lno - 1] + MTFL_SIZE - 1];
        lno := lno - 1;
      }
      mtfbase[0] := mtfbase[0] - 1;
      ghost var a := mtfa[..];
      mtfa[mtfbase[0]] := uc;
      SlideEnd(a, base0, l, nn);
    }

    /** Take entry off of window lno out, closing the window up over it. */
    method Gap(lno: nat, off: nat, ghost l: seq<int>) returns (uc: int)
      requires Valid(l) && lno < 16 && off < 16
      modifies mtfa
      ensures uc == l[16 * lno + off]
      ensures forall t :: mtfbase[lno] < t <= mtfbase[lno] + off ==> mtfa[t] == old(mtfa[t - 1])
      ensures forall t :: 0 <= t < MTFA_SIZE && !(mtfbase[lno] < t <= mtfbase[lno] + off) ==> mtfa[t] == old(mtfa[t])
    {
      ghost var a := mtfa[..];
      assert WindowIs(a, mtfbase[..][lno], l, lno);
      assert EntryIs(a, mtfbase[..][lno], l, lno, off);
      var bot := mtfbase[lno];
      var pp := bot + off;
      uc := mtfa[pp];
      while pp > bot
        invariant bot <= pp <= bot + off
        invariant forall t :: pp < t <= bot + off ==> mtfa[t] == a[t - 1]
        invariant forall t :: 0 <= t < MTFA_SIZE && !(pp < t <= bot + off) ==> mtfa[t] == a[t]
      {
        mtfa[pp] := mtfa[pp - 1];
        pp := pp - 1;
      }
    }

    /** All windows back to the top of the array, in place. */
    method Compact(ghost l: seq<int>)
      requires mtfa != mtfbase && mtfa.Length == MTFA_SIZE && mtfbase.Length == 16
      requires Shows(mtfa[..], mtfbase[..], l)
      modifies mtfa, mtfbase
      ensures Valid(l)
    {
      ghost var base0 := mtfbase[..];
      var kk := MTFA_SIZE - 1;
      var ii := 256 / MTFL_SIZE - 1;
      while ii >= 0
        invariant -1 <= ii <= 15 && kk == 3840 + 16 * ii + 15
        invariant mtfbase[..] == Raised(base0, ii)
        invariant forall w :: 0 <= w <= ii ==> WindowIs(mtfa[..], base0[w], l, w)
        invariant forall w :: ii < w < 16 ==> WindowIs(mtfa[..], 3840 + 16 * w, l, w)
      {
        RaiseWindow(ii, l, base0);
        kk := kk - 16;
        mtfbase[ii] := kk + 1;
        ii := ii - 1;
      }
      assert forall w :: 0 <= w < 16 ==> mtfbase[..][w] == 3840 + 16 * w;
    }

    /** The inner loop of the compaction: one window, last entry first. */
    method RaiseWindow(ii: nat, ghost l: seq<int>, ghost base0: seq<int>)
      requires mtfa != mtfbase && mtfa.Length == MTFA_SIZE && mtfbase.Length == 16
      requires ii < 16 && Apart(base0) && mtfbase[ii] == base0[ii]
      requires forall w :: 0 <= w <= ii ==> WindowIs(mtfa[..], base0[w], l, w)
      requires forall w :: ii < w < 16 ==> WindowIs(mtfa[..], 3840 + 16 * w, l, w)
      modifies mtfa
      ensures forall w :: 0 <= w < ii ==> WindowIs(mtfa[..], base0[w], l, w)
      ensures forall w :: ii <= w < 16 ==> WindowIs(mtfa[..], 3840 + 16 * w, l, w)
    {
      ghost var a := mtfa[..];
      RoomAbove(base0, ii);
      var bot, kk := mtfbase[ii], 3840 + 16 * ii + 15;
      var jj := MTFL_SIZE - 1;
      while jj >= 0
        invariant -1 <= jj <= 15 && kk == 3840 + 16 * ii + jj
        invariant forall t :: kk < t < 3840 + 16 * ii + 16 ==> mtfa[t] == a[bot + (t - (3840 + 16 * ii))]
        invariant forall t :: 0 <= t < MTFA_SIZE && !(kk < t < 3840 + 16 * ii + 16) ==> mtfa[t] == a[t]
      {
        mtfa[kk] := mtfa[bot + jj];
        kk := kk - 1;
        jj := jj - 1;
      }
      WindowRaised(a, mtfa[..], base0, l, ii);
    }

    /** uc = MTF(nn): the entry at nn, moved to the front, for every list position. */
    method Move(nn: nat, ghost l: seq<int>) returns (uc: int)
      requires Valid(l) && nn < 256
      modifies mtfa, mtfbase
      ensures uc == l[nn] && Valid(MoveToFront(l, nn))
    {
      hide MoveToFront;
      if nn < MTFL_SIZE {
        uc := MoveNear(nn, l);
      } else {
        uc := MoveFar(nn, l);
        if mtfbase[0] == 0 {
          Compact(MoveToFront(l, nn));
        }
      }
    }
  }

  /** The window starts part way through MoveFar: those above lno already lowered, lno itself raised if it is the
      one the entry came from. */
  function Lowered(base0: seq<int>, top: nat, lno: nat): (r: seq<int>)
    requires |base0| == 16 && lno <= top < 16
    ensures |r| == 16
  {
    seq(16, w requires 0 <= w < 16 =>
      if lno < w < top then base0[w] - 1 else if w == lno == top then base0[w] + 1 else base0[w])
  }

  /** Entries 1..15 of window lno's new contents sit where its first 15 old ones did, or have been closed up. */
  ghost predicate UpperIs(a: seq<int>, base: int, l: seq<int>, w: int)
  {
    && 0 <= w < 16 && |l| == 256 && |a| == MTFA_SIZE
    && forall k :: 1 <= k < 16 ==> EntryIs(a, base, l, w, k)
  }

  /** Part way through MoveFar, about to fill the bottom entry of window lno. */
  ghost predicate Sliding(a: seq<int>, base0: seq<int>, l: seq<int>, nn: nat, lno: nat)
    requires nn < 256 && |l| == 256
  {
    var top, l' := nn / 16, MoveToFront(l, nn);
    && Apart(base0) && base0[0] > 0 && |a| == MTFA_SIZE && lno <= top
    && (forall w :: 0 <= w < lno ==> WindowIs(a, base0[w], l, w))
    && UpperIs(a, if lno == top then base0[lno] else base0[lno] - 1, l', lno)
    && (forall w :: lno < w < 16 ==> WindowIs(a, if w < top then base0[w] - 1 else base0[w], l', w))
  }

  lemma GapShown(a: seq<int>, a': seq<int>, base0: seq<int>, l: seq<int>, nn: nat)
    requires Shows(a, base0, l) && base0[0] > 0 && 16 <= nn < 256 && |a'| == |a|
    requires var bot := base0[nn / 16];
             && (forall t :: bot < t <= bot + nn % 16 ==> a'[t] == a[t - 1])
             && forall t :: 0 <= t < MTFA_SIZE && !(bot < t <= bot + nn % 16) ==> a'[t] == a[t]
    ensures Sliding(a', base0, l, nn, nn / 16)
  {
    var top, l' := nn / 16, MoveToFront(l, nn);
    MoveToFrontAt(l, nn);
    forall w | 0 <= w < 16 && w != top ensures WindowIs(a', base0[w], l, w) {
      assert WindowIs(a, base0[w], l, w);
      if w < top { assert base0[w] + 16 <= base0[top]; } else { assert base0[top] + 16 <= base0[w]; }
      WindowKept(a, a', base0[w], l, w);
    }
    forall w | top < w < 16 ensures WindowIs(a', base0[w], l', w) {
      WindowEqual(a', base0[w], l, l', w);
    }
    assert WindowIs(a, base0[top], l, top);
    forall k | 1 <= k < 16 ensures EntryIs(a', base0[top], l', top, k) {
      assert EntryIs(a, base0[top], l, top, if k <= nn % 16 then k - 1 else k);
    }
  }

  lemma SlideStep(a: seq<int>, base0: seq<int>, l: seq<int>, nn: nat, lno: nat)
    requires 16 <= nn < 256 && |l| == 256 && 0 < lno && Sliding(a, base0, l, nn, lno)
    ensures var bot := if lno == nn / 16 then base0[lno] else base0[lno] - 1;
            && 0 <= bot < |a| && 0 <= base0[lno - 1] + 15 < |a|
            && Sliding(a[bot := a[base0[lno - 1] + 15]], base0, l, nn, lno - 1)
  {
    hide MoveToFront;
    var top, l' := nn / 16, MoveToFront(l, nn);
    MoveToFrontAt(l, nn);
    var bot := if lno == top then base0[lno] else base0[lno] - 1;
    assert WindowIs(a, base0[lno - 1], l, lno - 1) && EntryIs(a, base0[lno - 1], l, lno - 1, 15);
    assert base0[lno - 1] + 16 <= base0[lno];
    if lno < top { assert base0[lno] + 16 <= base0[top]; }
    if lno < 15 { assert base0[lno] + 16 <= base0[15]; }
    var a' := a[bot := a[base0[lno - 1] + 15]];
    // window lno is complete
    forall k | 0 <= k < 16 ensures EntryIs(a', bot, l', lno, k) {
      if k > 0 { assert EntryIs(a, bot, l', lno, k); }
    }
    // the one below keeps its first 15 entries, which are the new ones from 1 on
    var below, lower := lno - 1, base0[lno - 1] - 1;
    forall k | 1 <= k < 16 ensures EntryIs(a', lower, l', below, k) {
      assert EntryIs(a, base0[lno - 1], l, lno - 1, k - 1);
    }
    forall w | 0 <= w < lno - 1 ensures WindowIs(a', base0[w], l, w) {
      assert base0[w] + 16 <= base0[lno - 1];
      WindowKept(a, a', base0[w], l, w);
    }
    forall w | lno < w < 16 ensures WindowIs(a', if w < top then base0[w] - 1 else base0[w], l', w) {
      assert base0[lno] + 16 <= base0[w];
      WindowKept(a, a', if w < top then base0[w] - 1 else base0[w], l', w);
    }
  }

  lemma SlideEnd(a: seq<int>, base0: seq<int>, l: seq<int>, nn: nat)
    requires 16 <= nn < 256 && |l| == 256 && Sliding(a, base0, l, nn, 0)
    ensures 0 <= base0[0] - 1 < |a|
    ensures Shows(a[base0[0] - 1 := l[nn]], Lowered(base0, nn / 16, 0)[0 := base0[0] - 1], MoveToFront(l, nn))
  {
    var top, l' := nn / 16, MoveToFront(l, nn);
    MoveToFrontAt(l, nn);
    assert base0[0] + 16 <= base0[1];
    assert base0[1] + 16 <= base0[15];
    var bot := base0[0] - 1;
    var a', base := a[bot := l[nn]], Lowered(base0, top, 0)[0 := bot];
    forall w | 0 <= w < 16 ensures WindowIs(a', base[w], l', w) {
      if w == 0 {
        forall k | 0 <= k < 16 ensures EntryIs(a', bot, l', 0, k) {
          if k > 0 { assert EntryIs(a, bot, l', 0, k); }
        }
      } else {
        assert base0[0] + 16 <= base0[w];
        WindowKept(a, a', base[w], l', w);
      }
    }
    forall v, w | 0 <= v < w < 16 ensures base[v] + 16 <= base[w] {
      assert base0[v] + 16 <= base0[w];
    }
  }

  function Raised(base0: seq<int>, ii: int): (r: seq<int>)
    requires |base0| == 16
    ensures |r| == 16
  {
    seq(16, w requires 0 <= w < 16 => if w <= ii then base0[w] else 3840 + 16 * w)
  }

  /** There are 15 - ii windows above window ii. */
  lemma {:induction false} RoomAbove(base: seq<int>, ii: nat)
    requires Apart(base) && ii < 16
    ensures 0 <= base[ii] <= 3840 + 16 * ii
    decreases 16 - ii
  {
    if ii < 15 {
      RoomAbove(base, ii + 1);
      assert base[ii] + 16 <= base[ii + 1];
    }
    if ii > 0 { assert base[0] + 16 <= base[ii]; }
  }

  lemma WindowRaised(a: seq<int>, a': seq<int>, base0: seq<int>, l: seq<int>, ii: nat)
    requires |a| == |a'| == MTFA_SIZE && ii < 16 && Apart(base0) && |l| == 256
    requires forall w :: 0 <= w <= ii ==> WindowIs(a, base0[w], l, w)
    requires forall w :: ii < w < 16 ==> WindowIs(a, 3840 + 16 * w, l, w)
    requires base0[ii] <= 3840 + 16 * ii
    requires forall t :: 3840 + 16 * ii <= t < 3840 + 16 * ii + 16 ==> a'[t] == a[base0[ii] + (t - (3840 + 16 * ii))]
    requires forall t :: 0 <= t < MTFA_SIZE && !(3840 + 16 * ii <= t < 3840 + 16 * ii + 16) ==> a'[t] == a[t]
    ensures forall w :: 0 <= w < ii ==> WindowIs(a', base0[w], l, w)
    ensures forall w :: ii <= w < 16 ==> WindowIs(a', 3840 + 16 * w, l, w)
  {
    forall w | 0 <= w < ii ensures WindowIs(a', base0[w], l, w) {
      assert base0[w] + 16 <= base0[ii];
      WindowKept(a, a', base0[w], l, w);
    }
    forall w | ii <= w < 16 ensures WindowIs(a', 3840 + 16 * w, l, w) {
      if w > ii {
        WindowKept(a, a', 3840 + 16 * w, l, w);
      } else {
        var raised := 3840 + 16 * ii;
        forall k | 0 <= k < 16 ensures EntryIs(a', raised, l, ii, k) {
          assert EntryIs(a, base0[ii], l, ii, k);
        }
      }
    }
  }

  lemma NearShown(a: seq<int>, a': seq<int>, base: seq<int>, l: seq<int>, nn: nat)
    requires Shows(a, base, l) && nn < 16 && |a'| == |a|
    requires var pp := base[0];
             && a'[pp] == l[nn] && (forall t :: pp < t <= pp + nn ==> a'[t] == a[t - 1])
             && forall t :: 0 <= t < |a| && !(pp <= t <= pp + nn) ==> a'[t] == a[t]
    ensures Shows(a', base, MoveToFront(l, nn))
  {
    var l' := MoveToFront(l, nn);
    MoveToFrontAt(l, nn);
    forall w | 0 <= w < 16 ensures WindowIs(a', base[w], l', w) {
      assert WindowIs(a, base[w], l, w);
      if w > 0 {
        assert base[0] + 16 <= base[w];
        WindowEqual(a, base[w], l, l', w);
        WindowKept(a, a', base[w], l', w);
      } else {
        forall k | 0 <= k < 16 ensures EntryIs(a', base[0], l', 0, k) {
          if 1 <= k <= nn { assert EntryIs(a, base[0], l, 0, k - 1); }
          else { assert EntryIs(a, base[0], l, 0, k); }
        }
      }
    }
  }

  // ----- the loop over the symbols of a block

  /** nblock bytes are out: the entries of out, through the table of used bytes, with their counts. */
  ghost predicate Stored(tt: seq<int>, unzftab: seq<int>, seqToUnseq: seq<int>, out: seq<int>)
  {
    && |seqToUnseq| == 256 && |unzftab| == 256 && |out| <= |tt|
    && (forall i :: 0 <= i < |out| ==> 0 <= out[i] < 256)
    && (forall i :: 0 <= i < |out| ==> tt[i] == seqToUnseq[out[i]])
    && forall c :: 0 <= c < 256 ==> unzftab[c] == Occ(tt, 0, |out|, c)
  }

  ghost predicate AllSmall(l: seq<int>)
  {
    |l| == 256 && forall i :: 0 <= i < 256 ==> 0 <= l[i] < 256
  }

  lemma StoreMore(tt: seq<int>, u: seq<int>, code: seq<int>, out: seq<int>, x: int, tt': seq<int>, u': seq<int>)
    requires Stored(tt, u, code, out) && |out| < |tt| && 0 <= x < 256 && 0 <= code[x] < 256
    requires tt' == tt[|out| := code[x]] && u' == u[code[x] := u[code[x]] + 1]
    ensures Stored(tt', u', code, out + [x])
  {
    forall c | 0 <= c < 256 ensures u'[c] == Occ(tt', 0, |out| + 1, c) {
      OccSame(tt, tt', 0, |out|, c);
    }
  }

  /** The front of the list es times over; the count is kept up in one go, before the room is checked. */
  method StoreRun(tt: array<int>, unzftab: array<int>, seqToUnseq: array<int>, x: int, es0: nat, nblock0: nat, nblockMAX: nat,
                  ghost out: seq<int>) returns (ok: bool, nblock: nat)
    requires tt != unzftab && unzftab != seqToUnseq && tt != seqToUnseq && nblockMAX <= tt.Length
    requires Stored(tt[..], unzftab[..], seqToUnseq[..], out) && nblock0 == |out| <= nblockMAX
    requires 0 <= x < 256 && 0 <= seqToUnseq[x] < 256
    modifies tt, unzftab
    ensures ok <==> nblock0 + es0 <= nblockMAX
    ensures ok ==> nblock == nblock0 + es0 && Stored(tt[..], unzftab[..], seqToUnseq[..], out + Repeat(x, es0))
  {
    hide Occ;
    var uc := seqToUnseq[x];
    ghost var u := unzftab[..];
    unzftab[uc] := unzftab[uc] + es0;
    nblock := nblock0;
    var es := es0;
    ghost var t := 0;
    assert out + Repeat(x, 0) == out;
    while es > 0
      invariant 0 <= es && 0 <= t && t + es == es0 && nblock == nblock0 + t <= nblockMAX
      invariant |u| == 256 && unzftab[..] == u[uc := u[uc] + es]
      invariant Stored(tt[..], u, seqToUnseq[..], out + Repeat(x, t))
    {
      if nblock >= nblockMAX { return false, nblock; }
      ghost var a := tt[..];
      tt[nblock] := uc;
      StoreMore(a, u, seqToUnseq[..], out + Repeat(x, t), x, tt[..], u[uc := u[uc] + 1]);
      assert out + Repeat(x, t) + [x] == out + Repeat(x, t + 1);
      u := u[uc := u[uc] + 1];
      nblock := nblock + 1;
      es := es - 1;
      t := t + 1;
    }
    assert unzftab[..] == u;
    ok := true;
  }

  /** Between symbols of the loop: what is out so far agrees with the machine, its last run flushed. */
  ghost predicate Agrees(syms: seq<int>, p: nat, maxBlock: nat, out: seq<int>, l: seq<int>)
  {
    && p < |syms| && AllSmall(l)
    && Flush(Read(syms[..p], Identity(256), maxBlock), maxBlock) == Going(out, l, 0, 1)
    && (IsRun(syms[p]) ==> Read(syms[..p], Identity(256), maxBlock) == Going(out, l, 0, 1))
  }

  predicate IsRun(x: int)
  {
    x == RUNA || x == RUNB
  }

  /** Once the machine has gone bad it stays bad. */
  lemma {:induction false} BadForGood(syms: seq<int>, p: nat, k: nat, list: seq<int>, maxBlock: nat)
    requires p <= k <= |syms| && Read(syms[..p], list, maxBlock).Bad?
    ensures Read(syms[..k], list, maxBlock).Bad?
    decreases k - p
  {
    if p < k {
      ReadNext(syms, p, list, maxBlock);
      BadForGood(syms, p + 1, k, list, maxBlock);
    }
  }

  lemma ReadNext(syms: seq<int>, p: nat, list: seq<int>, maxBlock: nat)
    requires p < |syms|
    ensures Read(syms[..p + 1], list, maxBlock) == Step(Read(syms[..p], list, maxBlock), syms[p], maxBlock)
  {
    assert syms[..p + 1] == syms[..p] + [syms[p]];
    ReadSnoc(syms[..p], syms[p], list, maxBlock);
  }

  /** The symbols are used up before the block is decoded: reading on ends in end. */
  ghost predicate UsedUp(syms: seq<int>, p: int, maxBlock: nat, st: Status, end: Status)
  {
    p == |syms| && st == end && Read(syms, Identity(256), maxBlock).Going?
  }

  /** The digits of one run, from the first to the symbol after the last. */
  method ReadRun(src: SymbolReader, first: int, ghost syms: seq<int>, ghost end: Status, ghost p0: nat,
                 ghost maxBlock: nat, ghost out: seq<int>, ghost l: seq<int>)
    returns (st: Status, nextSym: int, es: nat, ghost p: nat)
    requires p0 < |syms| && first == syms[p0] && IsRun(first) && src.At(syms, end, p0 + 1)
    requires Read(syms[..p0], Identity(256), maxBlock) == Going(out, l, 0, 1)
    modifies src, src.r
    ensures p0 < p <= |syms|
    ensures st.Fine? ==> p < |syms| && nextSym == syms[p] && !IsRun(syms[p]) && src.At(syms, end, p + 1)
    ensures st.Fine? ==> exists w :: Read(syms[..p], Identity(256), maxBlock) == Going(out, l, es, w)
    ensures forall i :: p0 <= i < p ==> IsRun(syms[i])
    ensures !st.Fine? ==> (st.DataError? && Read(syms[..p], Identity(256), maxBlock).Bad?)
                          || UsedUp(syms, p, maxBlock, st, end)
  {
    hide Flush, Identity, MoveToFront, Read, SymbolReader.At;
    nextSym, p := first, p0;
    var es1 := -1;
    var N := 1;
    while true
      invariant p0 <= p < |syms| && nextSym == syms[p] && IsRun(nextSym) && es1 >= -1 && N >= 1
      invariant src.At(syms, end, p + 1)
      invariant Read(syms[..p], Identity(256), maxBlock) == Going(out, l, es1 + 1, N)
      invariant forall i :: p0 <= i < p ==> IsRun(syms[i])
      decreases |syms| - p
    {
      ReadNext(syms, p, Identity(256), maxBlock);
      if N >= 2 * 1024 * 1024 {
        st, p, es := DataError, p + 1, 0;
        return;
      }
      if nextSym == RUNA { es1 := es1 + (0 + 1) * N; } else { es1 := es1 + (1 + 1) * N; }
      N := N * 2;
      p := p + 1;
      assert p == |syms| ==> syms[..p] == syms;
      st, nextSym := src.Next(syms, end, p);
      if !st.Fine? { es := 0; return; }
      if !IsRun(nextSym) { break; }
    }
    st, es := Fine, es1 + 1;
  }

  lemma MoveSmall(l: seq<int>, k: nat)
    requires AllSmall(l) && k < 256
    ensures AllSmall(MoveToFront(l, k))
  {
    MoveToFrontAt(l, k);
  }

  /** A position symbol: the entry goes to the front of the list and out. */
  method StorePosition(list: MtfList, tt: array<int>, unzftab: array<int>, seqToUnseq: array<int>, sym: int, nblock: nat,
                       ghost out: seq<int>, ghost l: seq<int>)
    requires tt != unzftab && unzftab != seqToUnseq && tt != seqToUnseq
    requires {tt, unzftab, seqToUnseq} !! {list.mtfa, list.mtfbase}
    requires list.Valid(l) && AllSmall(l) && 1 <= sym <= 256 && nblock == |out| < tt.Length
    requires Stored(tt[..], unzftab[..], seqToUnseq[..], out)
    requires forall i :: 0 <= i < 256 ==> 0 <= seqToUnseq[i] < 256
    modifies tt, unzftab, list.mtfa, list.mtfbase
    ensures list.Valid(MoveToFront(l, sym - 1))
    ensures Stored(tt[..], unzftab[..], seqToUnseq[..], out + [l[sym - 1]])
  {
    hide MoveToFront, Shows;
    var uc := list.Move(sym - 1, l);
    ghost var a, u := tt[..], unzftab[..];
    unzftab[seqToUnseq[uc]] := unzftab[seqToUnseq[uc]] + 1;
    tt[nblock] := seqToUnseq[uc];
    StoreMore(a, u, seqToUnseq[..], out, uc, tt[..], unzftab[..]);
  }

  /** A run: its digits, then the front of the list that often. */
  method StoreDigits(list: MtfList, tt: array<int>, unzftab: array<int>, seqToUnseq: array<int>, src: SymbolReader,
                     first: int, nblock0: nat, nblockMAX: nat, ghost syms: seq<int>, ghost end: Status, ghost p0: nat,
                     ghost out: seq<int>, ghost l: seq<int>)
    returns (st: Status, nextSym: int, nblock: nat, ghost p: nat, ghost out': seq<int>)
    requires tt != unzftab && unzftab != seqToUnseq && tt != seqToUnseq && nblockMAX <= tt.Length
    requires {tt, unzftab, seqToUnseq} !! {list.mtfa, list.mtfbase}
    requires list.Valid(l) && Agrees(syms, p0, nblockMAX, out, l) && IsRun(syms[p0]) && nblock0 == |out| <= nblockMAX
    requires first == syms[p0] && src.At(syms, end, p0 + 1)
    requires Stored(tt[..], unzftab[..], seqToUnseq[..], out)
    requires forall i :: 0 <= i < 256 ==> 0 <= seqToUnseq[i] < 256
    modifies tt, unzftab, src, src.r
    ensures p0 < p <= |syms| && forall i :: p0 <= i < p ==> IsRun(syms[i])
    ensures list.Valid(l)
    ensures st.Fine? ==> Agrees(syms, p, nblockMAX, out', l) && nblock == |out'| <= nblockMAX
    ensures st.Fine? ==> p < |syms| && nextSym == syms[p] && src.At(syms, end, p + 1)
    ensures st.Fine? ==> Stored(tt[..], unzftab[..], seqToUnseq[..], out')
    ensures !st.Fine? ==> (st.DataError? && Read(syms[..p], Identity(256), nblockMAX).Bad?)
                          || UsedUp(syms, p, nblockMAX, st, end)
                          || (st.DataError? && p < |syms| && BlockState(syms, p, nblockMAX).Bad? && !IsRun(syms[p]))
  {
    hide Identity, MtfList.Valid, Read, Repeat, Stored, SymbolReader.At, SymbolReader.Valid, UsedUp;
    var es;
    nblock, out' := nblock0, out;
    st, nextSym, es, p := ReadRun(src, first, syms, end, p0, nblockMAX, out, l);
    if !st.Fine? { return; }
    ghost var w :| Read(syms[..p], Identity(256), nblockMAX) == Going(out, l, es, w);
    var x := list.Front(l);
    var ok;
    ok, nblock := StoreRun(tt, unzftab, seqToUnseq, x, es, nblock0, nblockMAX, out);
    st := if ok then Fine else DataError;
    out' := out + Repeat(l[0], es);
  }

  /** Where the symbols of the block end. */
  ghost predicate EndsAt(syms: seq<int>, k: nat, EOB: int)
  {
    k <= |syms| && (k < |syms| ==> syms[k] == EOB) && forall i :: 0 <= i < k ==> syms[i] != EOB
  }

  /** The machine goes bad on the first k symbols, or on ending there. */
  ghost predicate Dead(syms: seq<int>, k: nat, maxBlock: nat)
    requires k <= |syms|
  {
    if k < |syms| then BlockState(syms, k, maxBlock).Bad? else Read(syms, Identity(256), maxBlock).Bad?
  }

  lemma StaysDead(syms: seq<int>, p: nat, k: nat, maxBlock: nat)
    requires p <= k <= |syms|
    requires Read(syms[..p], Identity(256), maxBlock).Bad?
             || (p < |syms| && BlockState(syms, p, maxBlock).Bad? && !IsRun(syms[p]))
    ensures Dead(syms, k, maxBlock)
  {
    if p < k && Read(syms[..p], Identity(256), maxBlock).Going? {
      ReadNext(syms, p, Identity(256), maxBlock);
      BadForGood(syms, p + 1, k, Identity(256), maxBlock);
    } else if Read(syms[..p], Identity(256), maxBlock).Bad? {
      BadForGood(syms, p, k, Identity(256), maxBlock);
    }
    assert k == |syms| ==> syms[..k] == syms;
  }

  /** What the block's symbols, those before the end mark at k, decode to. */
  ghost function BlockState(syms: seq<int>, k: nat, maxBlock: nat): State
    requires k <= |syms|
  {
    Flush(Read(syms[..k], Identity(256), maxBlock), maxBlock)
  }

  /** How the loop ends on this stream. */
  ghost function Outcome(syms: seq<int>, k: nat, maxBlock: nat, end: Status): Status
    requires k <= |syms|
  {
    if Dead(syms, k, maxBlock) then DataError else if k < |syms| then Fine else end
  }

  lemma NoRoom(syms: seq<int>, p: nat, maxBlock: nat, out: seq<int>, l: seq<int>)
    requires Agrees(syms, p, maxBlock, out, l) && !IsRun(syms[p]) && |out| >= maxBlock
    ensures Read(syms[..p + 1], Identity(256), maxBlock).Bad?
  {
    hide Read;
    ReadNext(syms, p, Identity(256), maxBlock);
    StepFlushed(Read(syms[..p], Identity(256), maxBlock), syms[p], maxBlock);
  }

  lemma PositionRead(syms: seq<int>, p: nat, maxBlock: nat, out: seq<int>, l: seq<int>)
    requires Agrees(syms, p, maxBlock, out, l) && !IsRun(syms[p]) && |out| < maxBlock && 1 <= syms[p] <= 256
    ensures AllSmall(l) && |l| == 256
    ensures var out', l' := out + [l[syms[p] - 1]], MoveToFront(l, syms[p] - 1);
            && Read(syms[..p + 1], Identity(256), maxBlock) == Going(out', l', 0, 1)
            && (p + 1 < |syms| ==> Agrees(syms, p + 1, maxBlock, out', l'))
            && (p + 1 == |syms| ==> Read(syms, Identity(256), maxBlock) == Going(out', l', 0, 1))
  {
    hide Read, MoveToFront;
    ReadNext(syms, p, Identity(256), maxBlock);
    StepFlushed(Read(syms[..p], Identity(256), maxBlock), syms[p], maxBlock);
    MoveSmall(l, syms[p] - 1);
    assert out + [l[syms[p] - 1]] + Repeat(MoveToFront(l, syms[p] - 1)[0], 0) == out + [l[syms[p] - 1]];
    assert p + 1 == |syms| ==> syms[..p + 1] == syms;
  }

  lemma Unended(syms: seq<int>, maxBlock: nat, out: seq<int>, l: seq<int>)
    requires Read(syms, Identity(256), maxBlock) == Going(out, l, 0, 1)
    ensures !Dead(syms, |syms|, maxBlock)
  {
  }

  lemma RanOut(syms: seq<int>, p: int, k: nat, maxBlock: nat, st: Status, end: Status)
    requires UsedUp(syms, p, maxBlock, st, end) && p <= k <= |syms|
    ensures st == Outcome(syms, k, maxBlock, end)
  {
  }

  lemma Ended(syms: seq<int>, k: nat, maxBlock: nat, out: seq<int>, l: seq<int>, end: Status)
    requires Agrees(syms, k, maxBlock, out, l)
    ensures BlockState(syms, k, maxBlock) == Going(out, l, 0, 1) && Outcome(syms, k, maxBlock, end) == Fine
  {
  }

  /** One turn of the main loop, on a symbol that is not the end mark. */
  method StoreOne(list: MtfList, tt: array<int>, unzftab: array<int>, seqToUnseq: array<int>, src: SymbolReader,
                  first: int, nblock0: nat, nblockMAX: nat, ghost syms: seq<int>, ghost end: Status, ghost p0: nat,
                  ghost out: seq<int>, ghost l: seq<int>, ghost k: nat)
    returns (st: Status, nextSym: int, nblock: nat, ghost p: nat, ghost out': seq<int>, ghost l': seq<int>)
    requires tt != unzftab && unzftab != seqToUnseq && tt != seqToUnseq && nblockMAX <= tt.Length
    requires {tt, unzftab, seqToUnseq} !! {list.mtfa, list.mtfbase}
    requires list.Valid(l) && Agrees(syms, p0, nblockMAX, out, l) && nblock0 == |out| <= nblockMAX
    requires p0 < k <= |syms| && 0 <= syms[p0] <= 256 && (k < |syms| ==> !IsRun(syms[k]))
    requires first == syms[p0] && src.At(syms, end, p0 + 1) && !end.Fine?
    requires Stored(tt[..], unzftab[..], seqToUnseq[..], out)
    requires forall i :: 0 <= i < 256 ==> 0 <= seqToUnseq[i] < 256
    modifies tt, unzftab, list.mtfa, list.mtfbase, src, src.r
    ensures st.Fine? ==> p0 < p <= k && p < |syms| && list.Valid(l') && Agrees(syms, p, nblockMAX, out', l')
    ensures st.Fine? ==> nextSym == syms[p] && src.At(syms, end, p + 1)
    ensures st.Fine? ==> nblock == |out'| <= nblockMAX && Stored(tt[..], unzftab[..], seqToUnseq[..], out')
    ensures !st.Fine? ==> st == Outcome(syms, k, nblockMAX, end)
  {
    hide Agrees, AllSmall, BlockState, Dead, Identity, MoveToFront, MtfList.Valid, Read, Stored, SymbolReader.At,
      SymbolReader.Valid, UsedUp;
    nblock, out', l' := nblock0, out, l;
    if first == RUNA || first == RUNB {
      st, nextSym, nblock, p, out' := StoreDigits(list, tt, unzftab, seqToUnseq, src, first, nblock0, nblockMAX,
                                                  syms, end, p0, out, l);
      assert p <= k;
      if !st.Fine? {
        if UsedUp(syms, p, nblockMAX, st, end) { RanOut(syms, p, k, nblockMAX, st, end); }
        else { StaysDead(syms, p, k, nblockMAX); }
      }
    } else {
      p := p0 + 1;
      if nblock >= nblockMAX {
        st, nextSym := DataError, 0;
        NoRoom(syms, p0, nblockMAX, out, l);
        StaysDead(syms, p, k, nblockMAX);
        return;
      }
      PositionRead(syms, p0, nblockMAX, out, l);
      StorePosition(list, tt, unzftab, seqToUnseq, first, nblock, out, l);
      out', l' := out + [l[first - 1]], MoveToFront(l, first - 1);
      nblock := nblock + 1;
      st, nextSym := src.Next(syms, end, p);
      if !st.Fine? { Unended(syms, nblockMAX, out', l'); }
    }
  }

  /** A position symbol acts on the machine as on the machine with its run flushed. */
  lemma StepFlushed(s: State, sym: int, maxBlock: nat)
    requires !IsRun(sym) && Flush(s, maxBlock).Going?
    ensures var t := Flush(s, maxBlock);
            Step(s, sym, maxBlock)
            == if 0 <= sym - 1 < |t.list| && |t.out| < maxBlock
               then Going(t.out + [t.list[sym - 1]], MoveToFront(t.list, sym - 1), 0, 1) else Bad
  {
  }

  /** The decoder's symbol loop, for every bit stream: it ends well exactly when the machine is still going at the end
      mark, and then leaves the machine's output, as bytes, in tt with their counts in unzftab. */
  method DecodeColumn(src: SymbolReader, EOB: int, seqToUnseq: array<int>, tt: array<int>, unzftab: array<int>,
                      nblockMAX: nat, ghost syms: seq<int>, ghost end: Status, ghost k: nat)
    returns (st: Status, nblock: nat, ghost out: seq<int>)
    requires tt != unzftab && unzftab != seqToUnseq && tt != seqToUnseq && nblockMAX <= tt.Length
    requires seqToUnseq.Length == 256 && unzftab.Length == 256 && 2 <= EOB <= 257
    requires src.At(syms, end, 0) && EndsAt(syms, k, EOB)
    requires forall i :: 0 <= i < |syms| ==> 0 <= syms[i] <= EOB
    requires forall i :: 0 <= i < 256 ==> 0 <= seqToUnseq[i] < 256
    modifies tt, unzftab, src, src.r
    ensures st == Outcome(syms, k, nblockMAX, end)
    ensures st.Fine? ==> k < |syms| && BlockState(syms, k, nblockMAX).Going? && src.At(syms, end, k + 1)
    ensures st.Fine? ==> BlockState(syms, k, nblockMAX).out == out && nblock == |out| <= nblockMAX
    ensures st.Fine? ==> Stored(tt[..], unzftab[..], seqToUnseq[..], out)
  {
    hide Agrees, BlockState, Dead, Identity, MtfList.Valid, Step, Stored, SymbolReader.At, SymbolReader.Valid;
    var list := new MtfList();
    var i := 0;
    while i <= 255
      invariant 0 <= i <= 256 && forall c :: 0 <= c < i ==> unzftab[c] == 0
      invariant list.Valid(Identity(256)) && src.At(syms, end, 0)
    {
      unzftab[i] := 0;
      i := i + 1;
    }
    src.Unfinished(syms, end, 0);
    StoredNothing(tt[..], unzftab[..], seqToUnseq[..]);
    nblock, out := 0, [];
    ghost var l := Identity(256);
    var nextSym;
    st, nextSym := src.Next(syms, end, 0);
    if !st.Fine? {
      Unended(syms, nblockMAX, [], Identity(256));
      assert st == Outcome(syms, k, nblockMAX, end);
      return;
    }
    ghost var p: nat := 0;
    ReadNothing(syms, nblockMAX);
    while nextSym != EOB
      invariant 0 <= p <= k && p < |syms| && fresh(list.mtfa) && fresh(list.mtfbase) && nextSym == syms[p]
      invariant src.At(syms, end, p + 1) && st.Fine?
      invariant list.Valid(l) && Agrees(syms, p, nblockMAX, out, l) && nblock == |out| <= nblockMAX
      invariant Stored(tt[..], unzftab[..], seqToUnseq[..], out)
      decreases k - p
    {
      st, nextSym, nblock, p, out, l :=
        StoreOne(list, tt, unzftab, seqToUnseq, src, nextSym, nblock, nblockMAX, syms, end, p, out, l, k);
      if !st.Fine? { return; }
    }
    Ended(syms, k, nblockMAX, out, l, end);
  }

  lemma StoredNothing(tt: seq<int>, unzftab: seq<int>, seqToUnseq: seq<int>)
    requires |seqToUnseq| == |unzftab| == 256 && forall c :: 0 <= c < 256 ==> unzftab[c] == 0
    ensures Stored(tt, unzftab, seqToUnseq, [])
  {
  }

  lemma ReadNothing(syms: seq<int>, maxBlock: nat)
    requires syms != []
    ensures Agrees(syms, 0, maxBlock, [], Identity(256))
  {
    assert syms[..0] == [];
    assert [] + Repeat(Identity(256)[0], 0) == [];
  }
}
