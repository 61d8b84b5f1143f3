/** generateMTFValues: from sorted rotations to move-to-front symbols, written over the sort order as it is read. */
module MtfEncoder {
  import opened Permutations
  import opened Counting
  import opened Rotations
  import opened ByteOverlay
  import opened MtfSpec

  // ----- 16-bit symbols over 32-bit pointers

  /** The half-word k of word, low half first. */
  function GetHalf(word: int, k: nat): int
    requires k < 2
  {
    if k == 0 then word % 65536 else word / 65536
  }

  function SetHalf(word: int, k: nat, v: int): int
    requires k < 2
  {
    if k == 0 then word - word % 65536 + v else word % 65536 + v * 65536
  }

  lemma SetGetHalf(word: int, k: nat, v: int)
    requires 0 <= word < 0x1_0000_0000 && k < 2 && 0 <= v < 65536
    ensures var w := SetHalf(word, k, v);
            0 <= w < 0x1_0000_0000 && GetHalf(w, k) == v && GetHalf(w, 1 - k) == GetHalf(word, 1 - k)
  {
  }

  /** mtfv[k], where mtfv is arr1 seen as 16-bit entries. */
  function Mtfv(arr1: seq<int>, k: nat): int
    requires k < 2 * |arr1|
  {
    GetHalf(arr1[k / 2], k % 2)
  }

  /** The symbols written so far. */
  function Symbols(arr1: seq<int>, wr: nat): (r: seq<int>)
    requires wr <= 2 * |arr1|
    ensures |r| == wr
  {
    if wr == 0 then [] else Symbols(arr1, wr - 1) + [Mtfv(arr1, wr - 1)]
  }

  lemma {:induction false} SymbolsSame(a: seq<int>, c: seq<int>, wr: nat)
    requires wr <= 2 * |a| && |c| == |a|
    requires forall k :: 0 <= k < wr ==> Mtfv(a, k) == Mtfv(c, k)
    ensures Symbols(a, wr) == Symbols(c, wr)
  {
    if wr > 0 { SymbolsSame(a, c, wr - 1); }
  }

  /** mtfv[wr] = v. */
  method PutSymbol(arr1: array<int>, wr: nat, v: int)
    requires AllWords(arr1[..]) && wr < 2 * arr1.Length && 0 <= v < 65536
    modifies arr1
    ensures AllWords(arr1[..])
    ensures Symbols(arr1[..], wr + 1) == old(Symbols(arr1[..], wr)) + [v]
    ensures forall i :: 0 <= i < arr1.Length && i != wr / 2 ==> arr1[i] == old(arr1[i])
  {
    ghost var a := arr1[..];
    SetGetHalf(arr1[wr / 2], wr % 2, v);
    arr1[wr / 2] := SetHalf(arr1[wr / 2], wr % 2, v);
    forall k | 0 <= k < wr ensures Mtfv(arr1[..], k) == Mtfv(a, k) {
      if k / 2 == wr / 2 { assert k % 2 == 1 - wr % 2; }
    }
    SymbolsSame(a, arr1[..], wr);
  }

  // ----- the list

  /** Find c behind the front of the list and move it to the front, shifting the ones before it in one sweep. */
  method MoveFound(yy: array<int>, n: nat, c: int) returns (j: nat)
    requires n <= yy.Length && 2 <= n && yy[0] != c && c in yy[..n]
    modifies yy
    ensures 1 <= j < n && old(yy[j]) == c && forall t :: 0 <= t < j ==> old(yy[t]) != c
    ensures yy[..n] == MoveToFront(old(yy[..n]), j)
  {
    hide MoveToFront;
    ghost var l := yy[..n];
    var rtmp := yy[1];
    yy[1] := yy[0];
    j := 1;
    ghost var m :| 0 <= m < n && l[m] == c;
    while c != rtmp
      invariant 1 <= j <= m && rtmp == l[j]
      invariant forall t :: 1 <= t < j ==> l[t] != c
      invariant forall t :: 1 <= t <= j ==> yy[t] == l[t - 1]
      invariant forall t :: j < t < n ==> yy[t] == l[t]
      invariant yy[0] == l[0]
      decreases m - j
    {
      j := j + 1;
      var rtmp2 := rtmp;
      rtmp := yy[j];
      yy[j] := rtmp2;
    }
    yy[0] := rtmp;
    MoveToFrontAt(l, j);
    assert yy[..n] == MoveToFront(l, j);
  }

  // ----- the whole pass

  lemma Regroup(sy: seq<int>, z: nat)
    ensures sy + RunDigits(z + 1)
         == if z < 2 then sy + [z % 2] else sy + [z % 2] + RunDigits((z - 2) / 2 + 1)
  {
  }

  /** Write the digits of a pending run; nothing beyond the run's own length is overwritten. */
  method FlushRun(arr1: array<int>, wr0: nat, zPend: nat) returns (wr: nat)
    requires AllWords(arr1[..]) && 0 < zPend && wr0 + zPend <= 2 * arr1.Length
    modifies arr1
    ensures AllWords(arr1[..]) && wr0 < wr <= wr0 + zPend
    ensures Symbols(arr1[..], wr) == old(Symbols(arr1[..], wr0)) + RunDigits(zPend)
    ensures forall i :: wr0 + zPend <= 2 * i < 2 * arr1.Length ==> arr1[i] == old(arr1[i])
  {
    hide Symbols, RunDigits, AllWords, Mtfv;
    wr := wr0;
    var z := zPend - 1;
    ghost var goal := Symbols(arr1[..], wr0) + RunDigits(zPend);
    while true
      invariant AllWords(arr1[..]) && 0 <= z
      invariant wr0 <= wr && wr + z + 1 <= wr0 + zPend
      invariant Symbols(arr1[..], wr) + RunDigits(z + 1) == goal
      invariant forall i :: wr0 + zPend <= 2 * i < 2 * arr1.Length ==> arr1[i] == old(arr1[i])
      decreases z
    {
      Regroup(Symbols(arr1[..], wr), z);
      if z % 2 == 1 {
        PutSymbol(arr1, wr, RUNB);
      } else {
        PutSymbol(arr1, wr, RUNA);
      }
      wr := wr + 1;
      if z < 2 { break; }
      z := (z - 2) / 2;
    }
  }

  /** The symbols of the column: the list numbers of the bytes before the sorted rotations. */
  ghost function Column(b: seq<byte>, f: seq<int>, number: seq<int>): (r: seq<int>)
    requires |number| == 256 && forall i :: 0 <= i < |f| ==> 0 <= f[i] < |b|
    ensures |r| == |f| && forall i :: 0 <= i < |f| ==> r[i] == number[b[Prev(|b|, f[i])]]
  {
    seq(|f|, i requires 0 <= i < |f| => number[b[Prev(|b|, f[i])]])
  }

  lemma IdentityLists(n: nat)
    ensures Lists(Identity(n), n)
  {
    forall c | 0 <= c < n ensures c in Identity(n) { assert Identity(n)[c] == c; }
  }

  method InitList(nInUse: nat) returns (yy: array<int>)
    requires nInUse <= 256
    ensures fresh(yy) && yy.Length == 256 && yy[..nInUse] == Identity(nInUse)
  {
    yy := new int[256](_ => 0);
    var i := 0;
    while i < nInUse
      invariant 0 <= i <= nInUse && forall k :: 0 <= k < i ==> yy[k] == k
    {
      yy[i] := i;
      i := i + 1;
    }
  }

  /** The step for an entry that is not at the front: close the pending run, then send its list position. */
  method SendPosition(arr1: array<int>, wr0: nat, zPend: nat, yy: array<int>, nInUse: nat, ll: int) returns (wr: nat)
    requires arr1 != yy && AllWords(arr1[..]) && nInUse <= yy.Length && 2 <= nInUse <= 256
    requires wr0 + zPend < 2 * arr1.Length && ll in yy[..nInUse] && yy[0] != ll
    modifies arr1, yy
    ensures AllWords(arr1[..]) && wr <= wr0 + zPend + 1
    ensures Encoder(Symbols(arr1[..], wr), yy[..nInUse], 0)
         == Encode(old(Encoder(Symbols(arr1[..], wr0), yy[..nInUse], zPend)), ll)
    ensures forall i :: wr0 + zPend < 2 * i < 2 * arr1.Length ==> arr1[i] == old(arr1[i])
  {
    hide Symbols, RunDigits, AllWords, Mtfv, MoveToFront;
    ghost var sy := Symbols(arr1[..], wr0);
    wr := wr0;
    if zPend > 0 {
      wr := FlushRun(arr1, wr0, zPend);
    }
    assert Symbols(arr1[..], wr) == sy + RunDigits(zPend);
    ghost var l := yy[..nInUse];
    var j := MoveFound(yy, nInUse, ll);
    IndexOfFound(l, ll, j);
    PutSymbol(arr1, wr, j + 1);
    wr := wr + 1;
  }

  method EncodeEntry(arr1: array<int>, wr0: nat, zPend0: nat, yy: array<int>, nInUse: nat, ll: int)
    returns (wr: nat, zPend: nat)
    requires arr1 != yy && AllWords(arr1[..]) && nInUse <= yy.Length && nInUse <= 256
    requires wr0 + zPend0 < 2 * arr1.Length && 0 <= ll < nInUse && Lists(yy[..nInUse], nInUse)
    modifies arr1, yy
    ensures AllWords(arr1[..]) && wr + zPend <= wr0 + zPend0 + 1
    ensures Encoder(Symbols(arr1[..], wr), yy[..nInUse], zPend)
         == Encode(old(Encoder(Symbols(arr1[..], wr0), yy[..nInUse], zPend0)), ll)
    ensures forall i :: wr0 + zPend0 < 2 * i < 2 * arr1.Length ==> arr1[i] == old(arr1[i])
  {
    wr, zPend := wr0, zPend0;
    assert ll in yy[..nInUse] && yy[..nInUse][0] == yy[0];
    if yy[0] == ll {
      zPend := zPend + 1;
    } else {
      wr := SendPosition(arr1, wr, zPend, yy, nInUse, ll);
      zPend := 0;
    }
  }

  /** generateMTFValues. The symbols go over arr1, which holds the sort order, but never over an entry that is still
      to be read. */
  method GenerateMTFValues(arr1: array<int>, arr2: array<int>, unseqToSeq: array<int>, nblock: nat, nInUse: nat,
                           ghost b: seq<byte>, ghost f: seq<int>, ghost col: seq<int>)
    returns (nMTF: nat)
    requires arr1 != arr2 && arr1 != unseqToSeq && unseqToSeq.Length == 256
    requires 0 < nblock == |b| == |f| <= arr1.Length && nblock <= 4 * arr2.Length
    requires 1 <= nInUse <= 256 && AllWords(arr1[..])
    requires forall i :: 0 <= i < nblock ==> 0 <= f[i] < nblock && arr1[i] == f[i]
    requires forall i :: 0 <= i < nblock ==> ByteAt(arr2[..], i) == b[i]
    requires col == Column(b, f, unseqToSeq[..]) && forall i :: 0 <= i < nblock ==> 0 <= col[i] < nInUse
    modifies arr1
    ensures 1 <= nMTF <= nblock + 1 && AllWords(arr1[..])
    ensures Symbols(arr1[..], nMTF) == EncodedColumn(col, Identity(nInUse)) + [nInUse + 1]
  {
    hide Encode, IndexOf, MoveToFront, RunDigits, Symbols, Mtfv, AllWords, Lists, ByteAt;
    ghost var list := Identity(nInUse);
    IdentityLists(nInUse);
    var EOB := nInUse + 1;
    var wr, zPend := 0, 0;
    var yy := InitList(nInUse);
    var i := 0;
    while i < nblock
      invariant 0 <= i <= nblock && fresh(yy) && yy.Length == 256 && AllWords(arr1[..])
      invariant 0 <= wr && 0 <= zPend && wr + zPend <= i
      invariant Encoded(col, i, list) == Encoder(Symbols(arr1[..], wr), yy[..nInUse], zPend)
      invariant forall k :: i <= k < nblock ==> arr1[k] == f[k]
    {
      EncodedLists(col, i, list, nInUse);
      var ll := NextEntry(arr1[i], arr2, unseqToSeq, nblock, b);
      assert ll == col[i];
      wr, zPend := EncodeEntry(arr1, wr, zPend, yy, nInUse, ll);
      i := i + 1;
    }
    if zPend > 0 {
      wr := FlushRun(arr1, wr, zPend);
    }
    assert Symbols(arr1[..], wr) == EncodedColumn(col, list);
    PutSymbol(arr1, wr, EOB);
    nMTF := wr + 1;
  }

  method NextEntry(p: int, arr2: array<int>, unseqToSeq: array<int>, nblock: nat, ghost b: seq<byte>) returns (ll: int)
    requires 0 <= p < nblock == |b| <= 4 * arr2.Length && unseqToSeq.Length == 256
    requires forall i :: 0 <= i < nblock ==> ByteAt(arr2[..], i) == b[i]
    ensures ll == unseqToSeq[b[Prev(nblock, p)]]
  {
    var j := p - 1;
    if j < 0 { j := j + nblock; }
    assert ByteAt(arr2[..], j) == b[j];
    ll := unseqToSeq[ByteAt(arr2[..], j)];
  }
}
