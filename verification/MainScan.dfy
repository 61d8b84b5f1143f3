/** Step 2 of mainSort: from the big bucket of byte ss, in order, the small buckets [c, ss] of all other bytes, and of ss
    itself, by scanning it from both ends and putting each rotation's predecessor in its bucket. */
module MainScan {
  import opened Permutations
  import opened Counting
  import opened Rotations
  import opened MainOrder
  import opened MainQSort
  import opened MainBuckets

  /** The predecessors of q, as far as they begin with c, in the order of q. */
  ghost function Preds(b: seq<byte>, q: seq<int>, c: int): (r: seq<int>)
    ensures |r| <= |q|
  {
    if q == [] then []
    else var k := |q| - 1;
         Preds(b, q[..k], c)
         + (if 0 <= q[k] < |b| && b[Prev(|b|, q[k])] == c then [Prev(|b|, q[k])] else [])
  }

  /** q holds distinct rotations that begin with ss. */
  ghost predicate Queue(b: seq<byte>, q: seq<int>, ss: int)
  {
    && (forall i :: 0 <= i < |q| ==> 0 <= q[i] < |b| && b[q[i]] == ss)
    && forall i, j :: 0 <= i < j < |q| ==> q[i] != q[j]
  }

  lemma QueuePrefix(b: seq<byte>, q: seq<int>, ss: int, k: nat)
    requires Queue(b, q, ss) && k <= |q|
    ensures Queue(b, q[..k], ss)
  {
  }

  /** One step: the last entry's predecessor, if it begins with c. */
  lemma PredsLast(b: seq<byte>, q: seq<int>, c: int)
    requires q != [] && 0 <= q[|q| - 1] < |b|
    ensures var k := |q| - 1; var x := Prev(|b|, q[k]);
            Preds(b, q, c) == Preds(b, q[..k], c) + (if b[x] == c then [x] else [])
  {
  }

  ghost predicate IsPred(b: seq<byte>, q: seq<int>, c: int, x: int)
  {
    0 <= x < |b| && b[x] == c && Next(|b|, x) in q
  }

  /** Every predecessor comes from an entry of q. */
  lemma {:induction false} PredsAre(b: seq<byte>, q: seq<int>, c: int, ss: int)
    requires Queue(b, q, ss)
    ensures forall i :: 0 <= i < |Preds(b, q, c)| ==> IsPred(b, q, c, Preds(b, q, c)[i])
  {
    hide Preds;
    if q == [] {
      PredsNone(b, c);
    } else {
      var k := |q| - 1;
      QueuePrefix(b, q, ss, k);
      PredsAre(b, q[..k], c, ss);
      PredsLast(b, q, c);
      NextPrev(|b|, q[k]);
      var r := Preds(b, q[..k], c);
      forall i | 0 <= i < |Preds(b, q, c)| ensures IsPred(b, q, c, Preds(b, q, c)[i]) {
        if i < |r| { assert IsPred(b, q[..k], c, r[i]); }
      }
    }
  }

  lemma PredsNone(b: seq<byte>, c: int)
    ensures Preds(b, [], c) == []
  {
  }

  /** Every rotation that precedes an entry of q and begins with c is there. */
  lemma {:induction false} PredsAll(b: seq<byte>, q: seq<int>, c: int, ss: int, x: int)
    requires Queue(b, q, ss) && IsPred(b, q, c, x)
    ensures x in Preds(b, q, c)
  {
    hide Preds;
    var k := |q| - 1;
    PredsLast(b, q, c);
    PrevNext(|b|, x);
    if q[k] != Next(|b|, x) {
      QueuePrefix(b, q, ss, k);
      assert q == q[..k] + [q[k]];
      PredsAll(b, q[..k], c, ss, x);
    }
  }

  lemma NextPrev(n: nat, x: int)
    requires 0 <= x < n
    ensures Next(n, Prev(n, x)) == x
  {
  }

  lemma PrevNext(n: nat, x: int)
    requires 0 <= x < n
    ensures Prev(n, Next(n, x)) == x
  {
  }

  lemma {:induction false} PredsDistinct(b: seq<byte>, q: seq<int>, c: int, ss: int)
    requires Queue(b, q, ss)
    ensures forall i, j :: 0 <= i < j < |Preds(b, q, c)| ==> Preds(b, q, c)[i] != Preds(b, q, c)[j]
  {
    hide Preds;
    if q == [] {
      PredsNone(b, c);
    } else {
      var k := |q| - 1;
      QueuePrefix(b, q, ss, k);
      PredsDistinct(b, q[..k], c, ss);
      PredsAre(b, q[..k], c, ss);
      PredsLast(b, q, c);
      NextPrev(|b|, q[k]);
      var r, x := Preds(b, q[..k], c), Prev(|b|, q[k]);
      assert q[k] !in q[..k];
      forall i | 0 <= i < |r| ensures r[i] != x { assert IsPred(b, q[..k], c, r[i]); }
    }
  }

  /** An order in which equal first bytes leave it to the rest. */
  ghost predicate Lifts(b: seq<byte>, key: seq<int>)
  {
    |key| == |b| && forall x, y :: 0 <= x < |b| && 0 <= y < |b| ==> LiftsPair(b, key, x, y)
  }

  ghost predicate LiftsPair(b: seq<byte>, key: seq<int>, x: int, y: int)
  {
    && |key| == |b| && 0 <= x < |b| && 0 <= y < |b|
    && (b[x] == b[y] && key[Next(|b|, x)] <= key[Next(|b|, y)] ==> key[x] <= key[y])
  }

  /** Ranks, or ranks the other way round. */
  ghost function Key(b: seq<byte>, down: bool): (r: seq<int>)
    ensures |r| == |b| && forall x :: 0 <= x < |b| ==> r[x] == if down then -Rank(b)[x] else Rank(b)[x]
  {
    seq(|b|, x requires 0 <= x < |b| => if down then -Rank(b)[x] else Rank(b)[x])
  }

  lemma KeyLifts(b: seq<byte>, down: bool)
    ensures Lifts(b, Key(b, down))
  {
    hide Rank;
    forall x, y | 0 <= x < |b| && 0 <= y < |b| ensures LiftsPair(b, Key(b, down), x, y) {
      RankStep(b, x, y);
      RankStep(b, y, x);
    }
  }

  ghost predicate KeySorted(key: seq<int>, q: seq<int>)
  {
    && (forall i :: 0 <= i < |q| ==> 0 <= q[i] < |key|)
    && forall i, j :: 0 <= i < j < |q| ==> key[q[i]] <= key[q[j]]
  }

  /** Predecessors with the same byte are in the order of what they precede. */
  lemma {:induction false} PredsSorted(b: seq<byte>, key: seq<int>, q: seq<int>, c: int, ss: int)
    requires Lifts(b, key) && Queue(b, q, ss) && KeySorted(key, q)
    ensures KeySorted(key, Preds(b, q, c))
  {
    hide Preds;
    if q == [] {
      PredsNone(b, c);
    } else {
      var k := |q| - 1;
      QueuePrefix(b, q, ss, k);
      PredsSorted(b, key, q[..k], c, ss);
      PredsAre(b, q[..k], c, ss);
      PredsLast(b, q, c);
      var r, x := Preds(b, q[..k], c), Prev(|b|, q[k]);
      if b[x] == c {
        forall i | 0 <= i < |r| ensures key[r[i]] <= key[x] {
          assert IsPred(b, q[..k], c, r[i]);
          PredInOrder(b, key, q, k, r[i]);
        }
      }
    }
  }

  lemma PredInOrder(b: seq<byte>, key: seq<int>, q: seq<int>, k: nat, y: int)
    requires Lifts(b, key) && KeySorted(key, q) && k < |q| && 0 <= y < |b| && Next(|b|, y) in q[..k]
    requires b[y] == b[Prev(|b|, q[k])]
    ensures key[y] <= key[Prev(|b|, q[k])]
  {
    var x := Prev(|b|, q[k]);
    NextPrev(|b|, q[k]);
    var m :| 0 <= m < k && q[m] == Next(|b|, y);
    assert LiftsPair(b, key, y, x);
  }

  // ----- which end of the bucket a rotation is reached from

  /** A run of k bytes ss from x on, and then a byte below ss, or above it. */
  ghost predicate RunEnds(b: seq<byte>, ss: int, x: int, k: nat, up: bool)
    decreases k
  {
    && 0 <= x < |b| && b[x] == ss && k >= 1
    && if k == 1 then (if up then b[Next(|b|, x)] > ss else b[Next(|b|, x)] < ss)
       else RunEnds(b, ss, Next(|b|, x), k - 1, up)
  }

  lemma {:induction false} RunsDiffer(b: seq<byte>, ss: int, x: int, k: nat, m: nat)
    requires RunEnds(b, ss, x, k, false)
    ensures !RunEnds(b, ss, x, m, true)
    decreases k
  {
    if RunEnds(b, ss, x, m, true) && k > 1 && m > 1 { RunsDiffer(b, ss, Next(|b|, x), k - 1, m - 1); }
  }

  /** Rotations whose run ends low come before those whose run ends high. */
  lemma {:induction false} LowBeforeHigh(b: seq<byte>, ss: int, x: int, k: nat, y: int, m: nat)
    requires RunEnds(b, ss, x, k, false) && RunEnds(b, ss, y, m, true)
    ensures Rank(b)[x] < Rank(b)[y]
    decreases k
  {
    hide Rank;
    RankStep(b, x, y);
    RankStep(b, y, x);
    var x', y' := Next(|b|, x), Next(|b|, y);
    if k > 1 && m > 1 {
      LowBeforeHigh(b, ss, x', k - 1, y', m - 1);
    } else {
      RankStep(b, x', y');
    }
  }

  /** All of q is reached from the low end, or all from the high end. */
  ghost predicate AllEnd(b: seq<byte>, ss: int, q: seq<int>, up: bool)
  {
    forall i :: 0 <= i < |q| ==> Ends(b, ss, q[i], up)
  }

  ghost predicate Ends(b: seq<byte>, ss: int, x: int, up: bool)
  {
    exists k: nat :: RunEnds(b, ss, x, k, up)
  }

  lemma PredEnds(b: seq<byte>, ss: int, q: seq<int>, up: bool, x: int)
    requires AllEnd(b, ss, q, up) && 0 <= x < |b| && b[x] == ss && Next(|b|, x) in q
    ensures Ends(b, ss, x, up)
  {
    var i :| 0 <= i < |q| && q[i] == Next(|b|, x);
    assert Ends(b, ss, q[i], up);
    var k: nat :| RunEnds(b, ss, q[i], k, up);
    assert RunEnds(b, ss, x, k + 1, up);
  }

  /** Some byte is not ss, so every run of ss ends. */
  lemma RunOf(b: seq<byte>, ss: int, x: nat, z: nat) returns (k: nat, up: bool)
    requires x < |b| && z < |b| && b[x] == ss && b[z] != ss
    ensures RunEnds(b, ss, x, k, up)
    decreases if z > x then z - x else z + |b| - x
  {
    var y := Next(|b|, x);
    if b[y] == ss {
      k, up := RunOf(b, ss, y, z);
      k := k + 1;
    } else {
      k, up := 1, b[y] > ss;
    }
  }

  /** From the entries at one end, the scan's queue: the first bytes of the bucket, then predecessors of what is
      already there. */
  ghost predicate Closed(b: seq<byte>, ss: int, first: seq<int>, q: seq<int>, up: bool)
  {
    && (forall x :: 0 <= x < |b| && b[x] == ss && (if up then b[Next(|b|, x)] > ss else b[Next(|b|, x)] < ss) ==> x in first)
    && q == first + Preds(b, q, ss)
  }

  /** A queue closed under predecessors holds every rotation whose run ends on its side. */
  lemma {:induction false} ClosedHolds(b: seq<byte>, ss: int, first: seq<int>, q: seq<int>, up: bool, x: int, k: nat)
    requires Queue(b, q, ss) && Closed(b, ss, first, q, up) && RunEnds(b, ss, x, k, up)
    ensures x in q
    decreases k
  {
    if k == 1 {
      assert x in first;
      assert x in first + Preds(b, q, ss);
    } else {
      ClosedHolds(b, ss, first, q, up, Next(|b|, x), k - 1);
      PredsAll(b, q, ss, ss, x);
      assert x in first + Preds(b, q, ss);
    }
  }

  // ----- the state of a scan, from either end

  /** Small bucket [c, ss]. */
  function Small(c: int, ss: int): nat
    requires 0 <= c < 256 && 0 <= ss < 256
  {
    c * 256 + ss
  }

  /** The i-th place of bucket [c, ss] from the end the scan fills it from. */
  ghost function Place(b: seq<byte>, ss: int, c: int, i: int, up: bool): int
    requires 0 <= c < 256 && 0 <= ss < 256
  {
    if up then Start(b, Small(c, ss) + 1) - 1 - i else Start(b, Small(c, ss)) + i
  }

  /** The i-th place of big bucket ss from the end the scan reads it from. */
  ghost function QPlace(b: seq<byte>, ss: int, i: int, up: bool): int
    requires 0 <= ss < 256
  {
    if up then Start(b, (ss + 1) * 256) - 1 - i else Start(b, ss * 256) + i
  }

  ghost predicate QueueAt(b: seq<byte>, f: seq<int>, ss: int, q: seq<int>, i: int, up: bool)
  {
    0 <= ss < 256 && 0 <= i < |q| && 0 <= QPlace(b, ss, i, up) < |f| && f[QPlace(b, ss, i, up)] == q[i]
  }

  ghost predicate WrittenAt(b: seq<byte>, f: seq<int>, ss: int, w: seq<int>, c: int, i: int, up: bool)
  {
    && 0 <= ss < 256 && 0 <= c < 256 && 0 <= i < |w|
    && 0 <= Place(b, ss, c, i, up) < |f| && f[Place(b, ss, c, i, up)] == w[i]
  }

  /** Bucket [c, ss] holds w so far, and has room for more. */
  ghost predicate Written(b: seq<byte>, f: seq<int>, ss: int, w: seq<int>, c: int, up: bool)
  {
    && 0 <= ss < 256 && 0 <= c < 256 && |w| <= Start(b, Small(c, ss) + 1) - Start(b, Small(c, ss))
    && forall i :: 0 <= i < |w| ==> WrittenAt(b, f, ss, w, c, i, up)
  }

  /** Place k is not one that the scan has written, for any byte still to do. */
  ghost predicate Untouched(b: seq<byte>, done: seq<bool>, ss: int, q: seq<int>, up: bool, k: int)
    requires |done| == 256 && 0 <= ss < 256
  {
    forall c, i :: 0 <= c < 256 && !done[c] && 0 <= i < |Preds(b, q, c)| ==> k != Place(b, ss, c, i, up)
  }

  ghost predicate Kept(b: seq<byte>, f0: seq<int>, f: seq<int>, done: seq<bool>, ss: int, q: seq<int>, up: bool, k: int)
    requires |done| == 256 && 0 <= ss < 256
  {
    0 <= k < |f| && |f| == |f0| && (Untouched(b, done, ss, q, up, k) ==> f[k] == f0[k])
  }

  /** The entries the scan starts from: their second bytes are below ss, or above it. */
  ghost predicate FirstOnly(b: seq<byte>, ss: int, first: seq<int>, up: bool)
  {
    forall i :: 0 <= i < |first| ==>
      0 <= first[i] < |b| && b[first[i]] == ss && (if up then b[Next(|b|, first[i])] > ss else b[Next(|b|, first[i])] < ss)
  }

  ghost predicate GoodQueue(b: seq<byte>, ss: int, first: seq<int>, q: seq<int>, up: bool)
  {
    FirstOnly(b, ss, first, up) && AllEnd(b, ss, q, up) && KeySorted(Key(b, up), q)
  }

  /** t entries of the queue are processed: the predecessors that begin with a byte still to do are in their buckets. */
  ghost predicate Scanned(b: seq<byte>, f0: seq<int>, f: seq<int>, done: seq<bool>, ss: int, first: seq<int>, q: seq<int>,
                          t: int, up: bool)
  {
    && |done| == 256 && 0 <= ss < 256 && !done[ss] && 0 <= t <= |q| && |f| == |f0| == |b| && Queue(b, q, ss)
    && q == first + Preds(b, q[..t], ss) && GoodQueue(b, ss, first, q, up)
    && (forall i :: 0 <= i < |q| ==> QueueAt(b, f, ss, q, i, up))
    && (forall c :: 0 <= c < 256 && !done[c] ==> Written(b, f, ss, Preds(b, q[..t], c), c, up))
    && (forall k :: 0 <= k < |f| ==> Kept(b, f0, f, done, ss, q[..t], up, k))
    && |first| == (if up then Start(b, (ss + 1) * 256) - Start(b, Small(ss, ss) + 1)
                   else Start(b, Small(ss, ss)) - Start(b, ss * 256))
  }

  function Put(f: seq<int>, p: int, x: int): (r: seq<int>)
    ensures |r| == |f|
  {
    if 0 <= p < |f| then f[p := x] else f
  }

  lemma PredsStep(b: seq<byte>, q: seq<int>, t: nat, c: int)
    requires t < |q| && 0 <= q[t] < |b|
    ensures var x := Prev(|b|, q[t]);
            Preds(b, q[..t + 1], c) == Preds(b, q[..t], c) + (if b[x] == c then [x] else [])
  {
    assert q[..t + 1][..t] == q[..t];
  }

  /** Places of different buckets differ, and so do those of one bucket. */
  lemma PlacesApart(b: seq<byte>, ss: int, c: int, i: int, d: int, j: int, up: bool)
    requires 0 <= ss < 256 && 0 <= c < 256 && 0 <= d < 256
    requires 0 <= i < Start(b, Small(c, ss) + 1) - Start(b, Small(c, ss))
    requires 0 <= j < Start(b, Small(d, ss) + 1) - Start(b, Small(d, ss))
    ensures Place(b, ss, c, i, up) == Place(b, ss, d, j, up) ==> c == d && i == j
  {
    hide Start;
    if c != d { Apart(b, Small(c, ss), Small(d, ss)); }
  }

  /** A place of [c, ss], for another byte c, is outside big bucket ss. */
  lemma PlaceOutside(b: seq<byte>, ss: int, c: int, i: int, up: bool)
    requires 0 <= ss < 256 && 0 <= c < 256 && c != ss
    requires 0 <= i < Start(b, Small(c, ss) + 1) - Start(b, Small(c, ss))
    ensures Place(b, ss, c, i, up) < Start(b, ss * 256) || Start(b, (ss + 1) * 256) <= Place(b, ss, c, i, up)
  {
    hide Start;
    if c < ss { StartMono(b, Small(c, ss) + 1, ss * 256); } else { StartMono(b, (ss + 1) * 256, Small(c, ss)); }
  }

  /** Where the queue's next entry goes is where its bucket's next entry goes. */
  lemma QueueGrows(b: seq<byte>, ss: int, first: seq<int>, w: seq<int>, up: bool)
    requires 0 <= ss < 256
    requires |first| == (if up then Start(b, (ss + 1) * 256) - Start(b, Small(ss, ss) + 1)
                         else Start(b, Small(ss, ss)) - Start(b, ss * 256))
    ensures QPlace(b, ss, |first| + |w|, up) == Place(b, ss, ss, |w|, up)
  {
  }

  lemma PlaceInside(b: seq<byte>, ss: int, c: int, i: int, up: bool)
    requires 0 <= ss < 256 && 0 <= c < 256 && 0 <= i < Start(b, Small(c, ss) + 1) - Start(b, Small(c, ss))
    ensures Start(b, Small(c, ss)) <= Place(b, ss, c, i, up) < Start(b, Small(c, ss) + 1) <= |b|
  {
    hide Start;
    StartMono(b, Small(c, ss), Small(c, ss) + 1);
  }

  /** Nothing processed yet. */
  lemma ScanStart(b: seq<byte>, f: seq<int>, done: seq<bool>, ss: int, first: seq<int>, up: bool)
    requires |done| == 256 && 0 <= ss < 256 && !done[ss] && |f| == |b| && Queue(b, first, ss)
    requires FirstOnly(b, ss, first, up) && KeySorted(Key(b, up), first)
    requires |first| == (if up then Start(b, (ss + 1) * 256) - Start(b, Small(ss, ss) + 1)
                         else Start(b, Small(ss, ss)) - Start(b, ss * 256))
    requires forall i :: 0 <= i < |first| ==> QueueAt(b, f, ss, first, i, up)
    ensures Scanned(b, f, f, done, ss, first, first, 0, up)
  {
    hide Start, Rank;
    forall i | 0 <= i < |first| ensures Ends(b, ss, first[i], up) {
      assert RunEnds(b, ss, first[i], 1, up);
    }
    var e := first[..0];
    assert e == [] && first + Preds(b, [], ss) == first;
    forall c | 0 <= c < 256 && !done[c] ensures Written(b, f, ss, Preds(b, e, c), c, up) {
      StartMono(b, Small(c, ss), Small(c, ss) + 1);
    }
    forall k | 0 <= k < |f| ensures Kept(b, f, f, done, ss, e, up, k) {}
  }

  /** An entry whose predecessor begins with a byte that is done changes nothing. */
  lemma ScanSkip(b: seq<byte>, f0: seq<int>, f: seq<int>, done: seq<bool>, ss: int, first: seq<int>, q: seq<int>, t: nat,
                 up: bool)
    requires Scanned(b, f0, f, done, ss, first, q, t, up) && t < |q| && done[b[Prev(|b|, q[t])]]
    ensures Scanned(b, f0, f, done, ss, first, q, t + 1, up)
  {
    hide Preds, Start, Written, QueueAt, Place;
    PredsStep(b, q, t, ss);
    var q1 := q[..t + 1];
    forall c | 0 <= c < 256 && !done[c] ensures Preds(b, q1, c) == Preds(b, q[..t], c) {
      PredsStep(b, q, t, c);
    }
    forall k | 0 <= k < |f| ensures Kept(b, f0, f, done, ss, q1, up, k) {
      assert Kept(b, f0, f, done, ss, q[..t], up, k);
    }
  }

  /** Another entry's predecessor goes into its bucket, and perhaps into the queue. */
  lemma ScanPut(b: seq<byte>, f0: seq<int>, f: seq<int>, done: seq<bool>, ss: int, first: seq<int>, q: seq<int>, t: nat,
                up: bool)
    requires Scanned(b, f0, f, done, ss, first, q, t, up) && t < |q| && !done[b[Prev(|b|, q[t])]]
    requires var c := b[Prev(|b|, q[t])];
             |Preds(b, q[..t], c)| < Start(b, Small(c, ss) + 1) - Start(b, Small(c, ss))
    ensures var x := Prev(|b|, q[t]); var c := b[x]; var p := Place(b, ss, c, |Preds(b, q[..t], c)|, up);
            && 0 <= p < |f|
            && Scanned(b, f0, Put(f, p, x), done, ss, first, if c == ss then q + [x] else q, t + 1, up)
  {
    hide Preds, Start, Place, QPlace, Kept, Untouched, QueueAt, Written, GoodQueue, Put;
    var x := Prev(|b|, q[t]);
    var c := b[x];
    var w := Preds(b, q[..t], c);
    PlaceInside(b, ss, c, |w|, up);
    var q' := if c == ss then q + [x] else q;
    assert q'[..t + 1] == q[..t + 1] && q'[..t] == q[..t];
    PredsStep(b, q, t, ss);
    QueueMore(b, ss, first, q, t, up);
    PutAllQueued(b, f0, f, done, ss, first, q, t, up, x, c, w);
    PutAllWritten(b, f0, f, done, ss, first, q, t, up, x, c, w);
    PutAllKept(b, f0, f, done, ss, first, q, t, up, x, c, w);
  }

  lemma PutAllQueued(b: seq<byte>, f0: seq<int>, f: seq<int>, done: seq<bool>, ss: int, first: seq<int>, q: seq<int>, t: nat,
                     up: bool, x: int, c: int, w: seq<int>)
    requires Scanned(b, f0, f, done, ss, first, q, t, up) && t < |q| && x == Prev(|b|, q[t]) && c == b[x] && !done[c]
    requires w == Preds(b, q[..t], c) && |w| < Start(b, Small(c, ss) + 1) - Start(b, Small(c, ss))
    ensures var q' := if c == ss then q + [x] else q;
            forall i :: 0 <= i < |q'| ==> QueueAt(b, Put(f, Place(b, ss, c, |w|, up), x), ss, q', i, up)
  {
    hide Preds, Start, Place, QPlace, Kept, Untouched, QueueAt, Written, GoodQueue, Put;
    var f', q' := Put(f, Place(b, ss, c, |w|, up), x), if c == ss then q + [x] else q;
    assert Written(b, f, ss, Preds(b, q[..t], ss), ss, up);
    QueueFits(b, f, ss, first, Preds(b, q[..t], ss), up);
    forall i | 0 <= i < |q'| ensures QueueAt(b, f', ss, q', i, up) {
      if i < |q| { assert QueueAt(b, f, ss, q, i, up); }
      PutQueue(b, f, ss, first, q, w, c, x, i, up);
    }
  }

  lemma PutAllWritten(b: seq<byte>, f0: seq<int>, f: seq<int>, done: seq<bool>, ss: int, first: seq<int>, q: seq<int>, t: nat,
                      up: bool, x: int, c: int, w: seq<int>)
    requires Scanned(b, f0, f, done, ss, first, q, t, up) && t < |q| && x == Prev(|b|, q[t]) && c == b[x] && !done[c]
    requires w == Preds(b, q[..t], c) && |w| < Start(b, Small(c, ss) + 1) - Start(b, Small(c, ss))
    ensures forall d :: 0 <= d < 256 && !done[d] ==>
              Written(b, Put(f, Place(b, ss, c, |w|, up), x), ss, Preds(b, q[..t + 1], d), d, up)
  {
    hide Preds, Start, Place, QPlace, Kept, Untouched, QueueAt, Written, GoodQueue, Put;
    var f' := Put(f, Place(b, ss, c, |w|, up), x);
    forall d | 0 <= d < 256 && !done[d] ensures Written(b, f', ss, Preds(b, q[..t + 1], d), d, up) {
      PredsStep(b, q, t, d);
      assert Written(b, f, ss, Preds(b, q[..t], d), d, up);
      PutWritten(b, f, ss, w, c, x, Preds(b, q[..t], d), d, up);
    }
  }

  lemma PutAllKept(b: seq<byte>, f0: seq<int>, f: seq<int>, done: seq<bool>, ss: int, first: seq<int>, q: seq<int>, t: nat,
                   up: bool, x: int, c: int, w: seq<int>)
    requires Scanned(b, f0, f, done, ss, first, q, t, up) && t < |q| && x == Prev(|b|, q[t]) && c == b[x] && !done[c]
    requires w == Preds(b, q[..t], c) && 0 <= Place(b, ss, c, |w|, up) < |f|
    ensures var f', q1 := Put(f, Place(b, ss, c, |w|, up), x), q[..t + 1];
            forall k :: 0 <= k < |f| ==> Kept(b, f0, f', done, ss, q1, up, k)
  {
    hide Preds, Start, Place, QPlace, Kept, Untouched, QueueAt, Written, GoodQueue, Put;
    var f', q1 := Put(f, Place(b, ss, c, |w|, up), x), q[..t + 1];
    forall k | 0 <= k < |f| ensures Kept(b, f0, f', done, ss, q1, up, k) {
      assert Kept(b, f0, f, done, ss, q[..t], up, k);
      PutKept(b, f0, f, done, ss, q, t, up, k);
    }
  }

  /** A predecessor that begins with ss is new to the queue, and belongs at its end. */
  lemma QueueMore(b: seq<byte>, ss: int, first: seq<int>, q: seq<int>, t: nat, up: bool)
    requires Queue(b, q, ss) && t < |q| && q == first + Preds(b, q[..t], ss) && GoodQueue(b, ss, first, q, up)
    ensures b[Prev(|b|, q[t])] == ss ==>
              Queue(b, q + [Prev(|b|, q[t])], ss) && GoodQueue(b, ss, first, q + [Prev(|b|, q[t])], up)
  {
    hide Preds, Rank, FirstOnly, KeySorted, AllEnd;
    var x := Prev(|b|, q[t]);
    if b[x] == ss {
      NextPrev(|b|, q[t]);
      forall i | 0 <= i < |q| ensures q[i] != x && Key(b, up)[q[i]] <= Key(b, up)[x] {
        QueueBelow(b, ss, first, q, t, up, i);
      }
      PredEnds(b, ss, q, up, x);
      SnocSorted(Key(b, up), q, x);
      SnocEnds(b, ss, q, up, x);
    }
  }

  lemma SnocSorted(key: seq<int>, q: seq<int>, x: int)
    requires KeySorted(key, q) && 0 <= x < |key| && forall i :: 0 <= i < |q| ==> 0 <= q[i] < |key| && key[q[i]] <= key[x]
    ensures KeySorted(key, q + [x])
  {
  }

  lemma SnocEnds(b: seq<byte>, ss: int, q: seq<int>, up: bool, x: int)
    requires AllEnd(b, ss, q, up) && Ends(b, ss, x, up)
    ensures AllEnd(b, ss, q + [x], up)
  {
  }

  lemma QueueBelow(b: seq<byte>, ss: int, first: seq<int>, q: seq<int>, t: nat, up: bool, i: nat)
    requires Queue(b, q, ss) && t < |q| && q == first + Preds(b, q[..t], ss) && GoodQueue(b, ss, first, q, up)
    requires i < |q| && b[Prev(|b|, q[t])] == ss
    ensures q[i] != Prev(|b|, q[t]) && Key(b, up)[q[i]] <= Key(b, up)[Prev(|b|, q[t])]
  {
    hide Preds, Rank, AllEnd, KeySorted, Key;
    NextPrev(|b|, q[t]);
    if i < |first| {
      assert q[i] == first[i];
      FirstBelow(b, ss, q[i], Prev(|b|, q[t]), up);
    } else {
      PredsBelow(b, ss, q, t, up, i - |first|);
    }
  }

  lemma FirstBelow(b: seq<byte>, ss: int, y: nat, x: nat, up: bool)
    requires y < |b| && x < |b| && b[x] == b[y] == ss == b[Next(|b|, x)]
    requires if up then b[Next(|b|, y)] > ss else b[Next(|b|, y)] < ss
    ensures y != x && Key(b, up)[y] <= Key(b, up)[x]
  {
    hide Rank;
    var n := |b|;
    RankStep(b, x, y);
    RankStep(b, y, x);
    RankStep(b, Next(n, x), Next(n, y));
    RankStep(b, Next(n, y), Next(n, x));
  }

  lemma PredsBelow(b: seq<byte>, ss: int, q: seq<int>, t: nat, up: bool, i: nat)
    requires Queue(b, q, ss) && t < |q| && KeySorted(Key(b, up), q)
    requires i < |Preds(b, q[..t], ss)| && b[Prev(|b|, q[t])] == ss
    ensures var y := Preds(b, q[..t], ss)[i]; 0 <= y < |b| && y != Prev(|b|, q[t])
                                              && Key(b, up)[y] <= Key(b, up)[Prev(|b|, q[t])]
  {
    hide Preds, Rank, Key;
    var w := Preds(b, q[..t + 1], ss);
    PredsStep(b, q, t, ss);
    QueuePrefix(b, q, ss, t + 1);
    PredsDistinct(b, q[..t + 1], ss, ss);
    KeyLifts(b, up);
    PredsSorted(b, Key(b, up), q[..t + 1], ss, ss);
    assert w[i] == Preds(b, q[..t], ss)[i] && w[|w| - 1] == Prev(|b|, q[t]) && i < |w| - 1;
  }

  lemma PutQueue(b: seq<byte>, f: seq<int>, ss: int, first: seq<int>, q: seq<int>, w: seq<int>, c: int, x: int, i: nat,
                 up: bool)
    requires 0 <= ss < 256 && 0 <= c < 256 && |w| < Start(b, Small(c, ss) + 1) - Start(b, Small(c, ss))
    requires i < |q| ==> QueueAt(b, f, ss, q, i, up)
    requires i <= |q| && (i == |q| ==> c == ss) && (c == ss ==> q == first + w) && |f| == |b|
    requires |first| == (if up then Start(b, (ss + 1) * 256) - Start(b, Small(ss, ss) + 1)
                         else Start(b, Small(ss, ss)) - Start(b, ss * 256))
    requires |q| <= Start(b, (ss + 1) * 256) - Start(b, ss * 256)
    ensures QueueAt(b, Put(f, Place(b, ss, c, |w|, up), x), ss, if c == ss then q + [x] else q, i, up)
  {
    hide Start;
    PlaceInside(b, ss, c, |w|, up);
    if c == ss { QueueGrows(b, ss, first, w, up); } else { PlaceOutside(b, ss, c, |w|, up); }
    StartMono(b, ss * 256, (ss + 1) * 256);
  }

  lemma PutWritten(b: seq<byte>, f: seq<int>, ss: int, w: seq<int>, c: int, x: int, v: seq<int>, d: int, up: bool)
    requires Written(b, f, ss, v, d, up) && 0 <= c < 256 && (d == c ==> v == w) && |f| == |b|
    requires |w| < Start(b, Small(c, ss) + 1) - Start(b, Small(c, ss))
    ensures Written(b, Put(f, Place(b, ss, c, |w|, up), x), ss, v + (if d == c then [x] else []), d, up)
  {
    hide Start, Place;
    PlaceInside(b, ss, c, |w|, up);
    var f', v' := Put(f, Place(b, ss, c, |w|, up), x), v + (if d == c then [x] else []);
    forall i | 0 <= i < |v'| ensures WrittenAt(b, f', ss, v', d, i, up) {
      if i < |v| {
        assert WrittenAt(b, f, ss, v, d, i, up);
        PlacesApart(b, ss, c, |w|, d, i, up);
      }
    }
  }

  lemma PutKept(b: seq<byte>, f0: seq<int>, f: seq<int>, done: seq<bool>, ss: int, q: seq<int>, t: nat, up: bool, k: int)
    requires |done| == 256 && 0 <= ss < 256 && t < |q| && 0 <= q[t] < |b| && Kept(b, f0, f, done, ss, q[..t], up, k)
    requires var c := b[Prev(|b|, q[t])]; !done[c] && 0 <= Place(b, ss, c, |Preds(b, q[..t], c)|, up) < |f|
    ensures var x := Prev(|b|, q[t]); var c := b[x];
            Kept(b, f0, Put(f, Place(b, ss, c, |Preds(b, q[..t], c)|, up), x), done, ss, q[..t + 1], up, k)
  {
    hide Preds, Place;
    var x := Prev(|b|, q[t]);
    var c := b[x];
    if Untouched(b, done, ss, q[..t + 1], up, k) {
      forall d, i | 0 <= d < 256 && !done[d] && 0 <= i < |Preds(b, q[..t], d)| ensures k != Place(b, ss, d, i, up) {
        PredsStep(b, q, t, d);
      }
      PredsStep(b, q, t, c);
      assert Untouched(b, done, ss, q[..t], up, k);
      assert k != Place(b, ss, c, |Preds(b, q[..t], c)|, up);
    }
  }

  /** The queue never outgrows its big bucket. */
  lemma QueueFits(b: seq<byte>, f: seq<int>, ss: int, first: seq<int>, w: seq<int>, up: bool)
    requires 0 <= ss < 256 && Written(b, f, ss, w, ss, up)
    requires |first| == (if up then Start(b, (ss + 1) * 256) - Start(b, Small(ss, ss) + 1)
                         else Start(b, Small(ss, ss)) - Start(b, ss * 256))
    ensures |first + w| <= Start(b, (ss + 1) * 256) - Start(b, ss * 256)
  {
    hide Start;
    StartMono(b, ss * 256, Small(ss, ss));
    StartMono(b, Small(ss, ss) + 1, (ss + 1) * 256);
  }

  // ----- room, and what both scans together leave

  /** Lists from the two ends have nothing in common. */
  ghost predicate Disjoint(s: seq<int>, t: seq<int>)
  {
    forall i, j :: 0 <= i < |s| && 0 <= j < |t| ==> s[i] != t[j]
  }

  lemma EndsDisjoint(b: seq<byte>, ss: int, q: seq<int>, r: seq<int>)
    requires AllEnd(b, ss, q, false) && AllEnd(b, ss, r, true)
    ensures Disjoint(q, r)
  {
    forall i, j | 0 <= i < |q| && 0 <= j < |r| ensures q[i] != r[j] {
      assert Ends(b, ss, q[i], false) && Ends(b, ss, r[j], true);
      var k: nat :| RunEnds(b, ss, q[i], k, false);
      var m: nat :| RunEnds(b, ss, r[j], m, true);
      RunsDiffer(b, ss, q[i], k, m);
    }
  }

  lemma PredsDisjoint(b: seq<byte>, ss: int, q: seq<int>, r: seq<int>, c: int)
    requires Queue(b, q, ss) && Queue(b, r, ss) && Disjoint(q, r)
    ensures Disjoint(Preds(b, q, c), Preds(b, r, c))
  {
    hide Preds;
    PredsAre(b, q, c, ss);
    PredsAre(b, r, c, ss);
    var w, v := Preds(b, q, c), Preds(b, r, c);
    forall i, j | 0 <= i < |w| && 0 <= j < |v| ensures w[i] != v[j] {
      assert IsPred(b, q, c, w[i]) && IsPred(b, r, c, v[j]);
      NotBoth(q, r, Next(|b|, w[i]));
    }
  }

  lemma NotBoth(s: seq<int>, t: seq<int>, x: int)
    requires Disjoint(s, t) && x in s
    ensures x !in t
  {
  }

  /** The predecessors from both ends, one list after the other: distinct members of their bucket. */
  lemma BothEnds(b: seq<byte>, ss: int, q: seq<int>, r: seq<int>, c: int)
    requires 0 <= ss < 256 && 0 <= c < 256 && Queue(b, q, ss) && Queue(b, r, ss) && Disjoint(q, r)
    ensures AreMembers(b, Small(c, ss), Preds(b, q, c) + Preds(b, r, c))
  {
    hide Preds, Pairs;
    PredsDistinct(b, q, c, ss);
    PredsDistinct(b, r, c, ss);
    PredsDisjoint(b, ss, q, r, c);
    MembersOf(b, ss, q, c);
    MembersOf(b, ss, r, c);
  }

  /** So they fit into it together. */
  lemma Room(b: seq<byte>, ss: int, q: seq<int>, r: seq<int>, c: int)
    requires 0 <= ss < 256 && 0 <= c < 256 && Queue(b, q, ss) && Queue(b, r, ss) && Disjoint(q, r)
    ensures |Preds(b, q, c)| + |Preds(b, r, c)| <= Start(b, Small(c, ss) + 1) - Start(b, Small(c, ss))
  {
    hide Preds, Start, Pairs, Queue, Disjoint, AreMembers;
    BothEnds(b, ss, q, r, c);
    MembersFit(b, Small(c, ss), Preds(b, q, c) + Preds(b, r, c));
  }

  /** And they fill it when the queues hold every rotation that begins with ss. */
  lemma NoRoomLeft(b: seq<byte>, ss: int, q: seq<int>, r: seq<int>, c: int)
    requires 0 <= ss < 256 && 0 <= c < 256 && Queue(b, q, ss) && Queue(b, r, ss) && Disjoint(q, r)
    requires forall y :: 0 <= y < |b| && b[y] == ss ==> y in q || y in r
    ensures |Preds(b, q, c)| + |Preds(b, r, c)| == Start(b, Small(c, ss) + 1) - Start(b, Small(c, ss))
  {
    hide Preds, Start, Pairs, Queue, Disjoint, AreMembers;
    var w, v := Preds(b, q, c), Preds(b, r, c);
    BothEnds(b, ss, q, r, c);
    forall x | 0 <= x < |b| && Pairs(b)[x] == Small(c, ss) ensures x in w + v {
      PairParts(b, x, c, ss);
      var y := Next(|b|, x);
      if y in q { PredsAll(b, q, c, ss, x); } else { PredsAll(b, r, c, ss, x); }
      assert x in w || x in v;
    }
    MembersFit(b, Small(c, ss), w + v);
  }

  lemma PairParts(b: seq<byte>, x: nat, c: int, d: int)
    requires x < |b| && 0 <= c < 256 && 0 <= d < 256
    ensures Pairs(b)[x] == c * 256 + d <==> b[x] == c && b[Next(|b|, x)] == d
  {
    DivTwo(b[x], b[Next(|b|, x)], c, d);
  }

  lemma MembersOf(b: seq<byte>, ss: int, q: seq<int>, c: int)
    requires Queue(b, q, ss) && 0 <= ss < 256 && 0 <= c < 256
    ensures forall i :: 0 <= i < |Preds(b, q, c)| ==>
              0 <= Preds(b, q, c)[i] < |b| && Pairs(b)[Preds(b, q, c)[i]] == Small(c, ss)
  {
    hide Preds, Pairs;
    PredsAre(b, q, c, ss);
    forall i | 0 <= i < |Preds(b, q, c)|
      ensures 0 <= Preds(b, q, c)[i] < |b| && Pairs(b)[Preds(b, q, c)[i]] == Small(c, ss)
    {
      assert IsPred(b, q, c, Preds(b, q, c)[i]);
      QueueByte(b, q, ss, Next(|b|, Preds(b, q, c)[i]));
      PairParts(b, Preds(b, q, c)[i], c, ss);
    }
  }

  lemma QueueByte(b: seq<byte>, q: seq<int>, ss: int, y: int)
    requires Queue(b, q, ss) && y in q
    ensures 0 <= y < |b| && b[y] == ss
  {
  }

  /** Unless every byte is ss, the two finished queues hold all rotations that begin with ss. */
  lemma QueuesHoldAll(b: seq<byte>, ss: int, firstQ: seq<int>, q: seq<int>, firstR: seq<int>, r: seq<int>, z: nat, y: nat)
    requires Queue(b, q, ss) && Closed(b, ss, firstQ, q, false) && Queue(b, r, ss) && Closed(b, ss, firstR, r, true)
    requires z < |b| && b[z] != ss && y < |b| && b[y] == ss
    ensures y in q || y in r
  {
    var k, up := RunOf(b, ss, y, z);
    if up { ClosedHolds(b, ss, firstR, r, true, y, k); } else { ClosedHolds(b, ss, firstQ, q, false, y, k); }
  }

  /** Bucket [c, ss] holds w from its low end and v from its high end. */
  ghost predicate Filled(b: seq<byte>, f: seq<int>, ss: int, c: int, w: seq<int>, v: seq<int>)
  {
    && Written(b, f, ss, w, c, false) && Written(b, f, ss, v, c, true)
    && |w| + |v| == Start(b, Small(c, ss) + 1) - Start(b, Small(c, ss))
  }

  lemma FilledAt(b: seq<byte>, f: seq<int>, ss: int, c: int, w: seq<int>, v: seq<int>, k: int)
    requires Filled(b, f, ss, c, w, v) && Start(b, Small(c, ss)) <= k < Start(b, Small(c, ss) + 1)
    ensures var i := k - Start(b, Small(c, ss)); var j := Start(b, Small(c, ss) + 1) - 1 - k;
            0 <= k < |f| && if i < |w| then f[k] == w[i] else j < |v| && f[k] == v[j]
  {
    hide Start;
    var i, j := k - Start(b, Small(c, ss)), Start(b, Small(c, ss) + 1) - 1 - k;
    if i < |w| { assert WrittenAt(b, f, ss, w, c, i, false); } else { assert WrittenAt(b, f, ss, v, c, j, true); }
  }

  /** A filled bucket holds distinct rotations of its own, in order. */
  lemma FilledGood(b: seq<byte>, f: seq<int>, ss: int, c: int, q: seq<int>, r: seq<int>, k: int, m: int)
    requires Queue(b, q, ss) && Queue(b, r, ss) && AllEnd(b, ss, q, false) && AllEnd(b, ss, r, true)
    requires KeySorted(Key(b, false), q) && KeySorted(Key(b, true), r)
    requires 0 <= ss < 256 && 0 <= c < 256 && Filled(b, f, ss, c, Preds(b, q, c), Preds(b, r, c))
    requires Start(b, Small(c, ss)) <= k <= m < Start(b, Small(c, ss) + 1)
    ensures 0 <= k <= m < |f| && 0 <= f[k] < |b| && 0 <= f[m] < |b|
    ensures Pairs(b)[f[k]] == Small(c, ss) && Rank(b)[f[k]] <= Rank(b)[f[m]] && (k < m ==> f[k] != f[m])
  {
    hide AllEnd, Before, Filled, Key, KeySorted, Pairs, Preds, Queue, Rank, Small, Start;
    var w, v := Preds(b, q, c), Preds(b, r, c);
    FilledAt(b, f, ss, c, w, v, k);
    FilledAt(b, f, ss, c, w, v, m);
    MembersOf(b, ss, q, c);
    MembersOf(b, ss, r, c);
    PredsDistinct(b, q, c, ss);
    PredsDistinct(b, r, c, ss);
    KeyLifts(b, false);
    KeyLifts(b, true);
    PredsSorted(b, Key(b, false), q, c, ss);
    PredsSorted(b, Key(b, true), r, c, ss);
    var i, j := k - Start(b, Small(c, ss)), Start(b, Small(c, ss) + 1) - 1 - m;
    if m - Start(b, Small(c, ss)) < |w| {
      InOrderUp(b, w, i, m - Start(b, Small(c, ss)));
    } else if i >= |w| {
      InOrderDown(b, v, j, Start(b, Small(c, ss) + 1) - 1 - k);
    } else {
      LowHigh(b, ss, q, r, c, i, j);
    }
  }

  lemma InOrderUp(b: seq<byte>, w: seq<int>, i: nat, j: nat)
    requires i <= j < |w| && KeySorted(Key(b, false), w)
    ensures 0 <= w[i] < |b| && 0 <= w[j] < |b| && Rank(b)[w[i]] <= Rank(b)[w[j]]
  {
    hide Rank;
  }

  lemma InOrderDown(b: seq<byte>, v: seq<int>, i: nat, j: nat)
    requires i <= j < |v| && KeySorted(Key(b, true), v)
    ensures 0 <= v[i] < |b| && 0 <= v[j] < |b| && Rank(b)[v[j]] <= Rank(b)[v[i]]
  {
    hide Rank;
  }

  lemma LowHigh(b: seq<byte>, ss: int, q: seq<int>, r: seq<int>, c: int, i: nat, j: nat)
    requires Queue(b, q, ss) && Queue(b, r, ss) && AllEnd(b, ss, q, false) && AllEnd(b, ss, r, true)
    requires i < |Preds(b, q, c)| && j < |Preds(b, r, c)|
    ensures var x, y := Preds(b, q, c)[i], Preds(b, r, c)[j];
            0 <= x < |b| && 0 <= y < |b| && Rank(b)[x] <= Rank(b)[y] && x != y
  {
    hide Preds, Rank;
    PredsAre(b, q, c, ss);
    PredsAre(b, r, c, ss);
    var x, y := Preds(b, q, c)[i], Preds(b, r, c)[j];
    assert IsPred(b, q, c, x) && IsPred(b, r, c, y);
    var m :| 0 <= m < |q| && q[m] == Next(|b|, x);
    var p :| 0 <= p < |r| && r[p] == Next(|b|, y);
    assert Ends(b, ss, q[m], false) && Ends(b, ss, r[p], true);
    var k: nat :| RunEnds(b, ss, q[m], k, false);
    var l: nat :| RunEnds(b, ss, r[p], l, true);
    LowBeforeHigh(b, ss, q[m], k, r[p], l);
    RankStep(b, x, y);
  }

  // ----- the list after both scans

  /** Both scans are through: q from the low end, over f0, and r from the high end, over f1. */
  ghost predicate BothScanned(b: seq<byte>, f0: seq<int>, f1: seq<int>, f2: seq<int>, done: seq<bool>, ss: int,
                              firstQ: seq<int>, q: seq<int>, firstR: seq<int>, r: seq<int>)
  {
    && Scanned(b, f0, f1, done, ss, firstQ, q, |q|, false)
    && Scanned(b, f1, f2, done, ss, firstR, r, |r|, true)
  }

  /** What the low scan wrote is still there after the high scan. */
  lemma LowStays(b: seq<byte>, f0: seq<int>, f1: seq<int>, f2: seq<int>, done: seq<bool>, ss: int,
                 firstQ: seq<int>, q: seq<int>, firstR: seq<int>, r: seq<int>, c: int)
    requires BothScanned(b, f0, f1, f2, done, ss, firstQ, q, firstR, r) && 0 <= c < 256 && !done[c]
    ensures Written(b, f2, ss, Preds(b, q, c), c, false)
  {
    hide Preds, Start, Queue, AllEnd, KeySorted;
    var w := Preds(b, q, c);
    assert q[..|q|] == q && r[..|r|] == r;
    assert Written(b, f1, ss, w, c, false);
    EndsDisjoint(b, ss, q, r);
    Room(b, ss, q, r, c);
    forall i | 0 <= i < |w| ensures WrittenAt(b, f2, ss, w, c, i, false) {
      assert WrittenAt(b, f1, ss, w, c, i, false);
      var k := Place(b, ss, c, i, false);
      forall d, j | 0 <= d < 256 && !done[d] && 0 <= j < |Preds(b, r, d)| ensures k != Place(b, ss, d, j, true) {
        Room(b, ss, q, r, d);
        if d != c { Apart(b, Small(c, ss), Small(d, ss)); }
      }
      assert Kept(b, f1, f2, done, ss, r, true, k) && Untouched(b, done, ss, r, true, k);
    }
  }

  /** Places outside the buckets the scans fill are as they were. */
  lemma OthersStay(b: seq<byte>, f0: seq<int>, f1: seq<int>, f2: seq<int>, done: seq<bool>, ss: int,
                   firstQ: seq<int>, q: seq<int>, firstR: seq<int>, r: seq<int>, k: int)
    requires BothScanned(b, f0, f1, f2, done, ss, firstQ, q, firstR, r) && 0 <= k < |b|
    requires forall c :: 0 <= c < 256 && !done[c] ==> k < Start(b, Small(c, ss)) || Start(b, Small(c, ss) + 1) <= k
    ensures f2[k] == f0[k]
  {
    hide Preds, Start, Queue, AllEnd, KeySorted;
    assert q[..|q|] == q && r[..|r|] == r;
    forall d, j | 0 <= d < 256 && !done[d] && 0 <= j < |Preds(b, r, d)| ensures k != Place(b, ss, d, j, true) {
      assert Written(b, f2, ss, Preds(b, r, d), d, true);
    }
    forall d, j | 0 <= d < 256 && !done[d] && 0 <= j < |Preds(b, q, d)| ensures k != Place(b, ss, d, j, false) {
      assert Written(b, f1, ss, Preds(b, q, d), d, false);
    }
    assert Kept(b, f1, f2, done, ss, r, true, k) && Untouched(b, done, ss, r, true, k);
    assert Kept(b, f0, f1, done, ss, q, false, k) && Untouched(b, done, ss, q, false, k);
  }

  /** The first entries of a queue are all there are. */
  ghost predicate AllFirst(b: seq<byte>, ss: int, first: seq<int>, up: bool)
  {
    forall x :: 0 <= x < |b| && b[x] == ss && (if up then b[Next(|b|, x)] > ss else b[Next(|b|, x)] < ss) ==> x in first
  }

  /** Each bucket [c, ss] with c still to do is filled, unless the whole block is one byte. */
  lemma BucketFilled(b: seq<byte>, f0: seq<int>, f1: seq<int>, f2: seq<int>, done: seq<bool>, ss: int,
                     firstQ: seq<int>, q: seq<int>, firstR: seq<int>, r: seq<int>, z: nat, c: int)
    requires BothScanned(b, f0, f1, f2, done, ss, firstQ, q, firstR, r) && 0 <= c < 256 && !done[c]
    requires AllFirst(b, ss, firstQ, false) && AllFirst(b, ss, firstR, true) && z < |b| && b[z] != ss
    ensures Filled(b, f2, ss, c, Preds(b, q, c), Preds(b, r, c))
  {
    hide Preds, Start, Queue, AllEnd, KeySorted, QueueAt, Kept, Written;
    assert q[..|q|] == q && r[..|r|] == r;
    LowStays(b, f0, f1, f2, done, ss, firstQ, q, firstR, r, c);
    EndsDisjoint(b, ss, q, r);
    forall y | 0 <= y < |b| && b[y] == ss ensures y in q || y in r {
      QueuesHoldAll(b, ss, firstQ, q, firstR, r, z, y);
    }
    NoRoomLeft(b, ss, q, r, c);
  }

  /** The place k lies in bucket [c, ss], for a byte c still to do. */
  ghost predicate Refilled(b: seq<byte>, done: seq<bool>, ss: int, c: int, k: int)
  {
    |done| == 256 && 0 <= c < 256 && 0 <= ss < 256 && !done[c] && Start(b, Small(c, ss)) <= k < Start(b, Small(c, ss) + 1)
  }

  /** Places k <= m of one bucket hold rotations of that bucket, in order and not the same one twice. */
  ghost predicate PairGood(b: seq<byte>, f: seq<int>, sb: nat, k: int, m: int)
  {
    && InPlace(b, f, k) && InPlace(b, f, m) && Pairs(b)[f[k]] == sb
    && Rank(b)[f[k]] <= Rank(b)[f[m]] && (k < m ==> f[k] != f[m])
  }

  /** All pairs of places of filled buckets are good. */
  ghost predicate Refills(b: seq<byte>, f: seq<int>, done: seq<bool>, ss: int)
  {
    forall c, k, m :: Refilled(b, done, ss, c, k) && Refilled(b, done, ss, c, m) && k <= m ==> PairGood(b, f, Small(c, ss), k, m)
  }

  lemma ScansRefill(b: seq<byte>, f0: seq<int>, f1: seq<int>, f2: seq<int>, done: seq<bool>, ss: int,
                    firstQ: seq<int>, q: seq<int>, firstR: seq<int>, r: seq<int>, z: nat)
    requires BothScanned(b, f0, f1, f2, done, ss, firstQ, q, firstR, r)
    requires AllFirst(b, ss, firstQ, false) && AllFirst(b, ss, firstR, true) && z < |b| && b[z] != ss
    ensures Refills(b, f2, done, ss)
  {
    hide Preds, Start, Queue, AllEnd, KeySorted, QueueAt, Kept, Written, Pairs, Rank, Filled, Key, InPlace;
    assert q[..|q|] == q && r[..|r|] == r;
    forall c, k, m | Refilled(b, done, ss, c, k) && Refilled(b, done, ss, c, m) && k <= m
      ensures PairGood(b, f2, Small(c, ss), k, m)
    {
      BucketFilled(b, f0, f1, f2, done, ss, firstQ, q, firstR, r, z, c);
      FilledGood(b, f2, ss, c, q, r, k, m);
      FilledGood(b, f2, ss, c, q, r, m, m);
      PlaceOf(b, f2, k, Small(c, ss));
      PlaceOf(b, f2, m, Small(c, ss));
    }
  }

  /** A place of a filled bucket, if k is one. */
  ghost predicate InRefilled(b: seq<byte>, done: seq<bool>, ss: int, k: int)
  {
    exists c :: Refilled(b, done, ss, c, k)
  }

  /** After both scans every rotation is still listed once, in its bucket, and the filled buckets are in order. */
  lemma ScansDone(b: seq<byte>, f0: seq<int>, f1: seq<int>, f2: seq<int>, done: seq<bool>, ss: int,
                  firstQ: seq<int>, q: seq<int>, firstR: seq<int>, r: seq<int>, z: nat)
    requires BothScanned(b, f0, f1, f2, done, ss, firstQ, q, firstR, r) && Bucketed(b, f0)
    requires AllFirst(b, ss, firstQ, false) && AllFirst(b, ss, firstR, true) && z < |b| && b[z] != ss
    ensures Bucketed(b, f2)
    ensures forall c :: 0 <= c < 256 && !done[c] ==> BucketSorted(b, f2, Small(c, ss))
    ensures forall k :: 0 <= k < |b| && !InRefilled(b, done, ss, k) ==> f2[k] == f0[k]
  {
    hide Preds, Start, Queue, AllEnd, KeySorted, QueueAt, Kept, Written, Pairs, Rank, Key, InPlace, Refilled, PairGood,
      AllFirst, Scanned, BucketSorted;
    BothShape(b, f0, f1, f2, done, ss, firstQ, q, firstR, r);
    ScansRefill(b, f0, f1, f2, done, ss, firstQ, q, firstR, r, z);
    forall k | 0 <= k < |b| && !InRefilled(b, done, ss, k) ensures f2[k] == f0[k] {
      forall c | 0 <= c < 256 && !done[c] ensures k < Start(b, Small(c, ss)) || Start(b, Small(c, ss) + 1) <= k {
        assert !Refilled(b, done, ss, c, k);
        NotRefilled(b, done, ss, c, k);
      }
      OthersStay(b, f0, f1, f2, done, ss, firstQ, q, firstR, r, k);
    }
    forall k | 0 <= k < |f2| ensures InPlace(b, f2, k) {
      assert InPlace(b, f0, k);
      if InRefilled(b, done, ss, k) {
        var c :| Refilled(b, done, ss, c, k);
        RefillPlace(b, f2, done, ss, c, k);
      } else {
        KeptPlace(b, f0, f2, k);
      }
    }
    forall i, j | 0 <= i < j < |f2| ensures f2[i] != f2[j] {
      assert InPlace(b, f2, i) && InPlace(b, f2, j);
      StillDistinct(b, f0, f2, done, ss, i, j);
    }
    forall c | 0 <= c < 256 && !done[c] ensures BucketSorted(b, f2, Small(c, ss)) {
      SortedBucket(b, f2, done, ss, c);
    }
  }

  lemma BothShape(b: seq<byte>, f0: seq<int>, f1: seq<int>, f2: seq<int>, done: seq<bool>, ss: int,
                  firstQ: seq<int>, q: seq<int>, firstR: seq<int>, r: seq<int>)
    requires BothScanned(b, f0, f1, f2, done, ss, firstQ, q, firstR, r)
    ensures |f2| == |f0| == |b| && |done| == 256 && 0 <= ss < 256
  {
  }

  lemma NotRefilled(b: seq<byte>, done: seq<bool>, ss: int, c: int, k: int)
    requires !Refilled(b, done, ss, c, k) && |done| == 256 && 0 <= ss < 256 && 0 <= c < 256 && !done[c]
    ensures k < Start(b, Small(c, ss)) || Start(b, Small(c, ss) + 1) <= k
  {
  }

  lemma RefillPlace(b: seq<byte>, f: seq<int>, done: seq<bool>, ss: int, c: int, k: int)
    requires Refills(b, f, done, ss) && Refilled(b, done, ss, c, k)
    ensures InPlace(b, f, k)
  {
    hide InPlace;
    assert PairGood(b, f, Small(c, ss), k, k);
  }

  lemma PlaceOf(b: seq<byte>, f: seq<int>, k: int, sb: nat)
    requires 0 <= k < |f| && 0 <= f[k] < |b| && Pairs(b)[f[k]] == sb && Start(b, sb) <= k < Start(b, sb + 1)
    ensures InPlace(b, f, k)
  {
    hide Pairs, Start;
  }

  lemma KeptPlace(b: seq<byte>, f: seq<int>, g: seq<int>, k: int)
    requires InPlace(b, f, k) && |g| == |f| && g[k] == f[k]
    ensures InPlace(b, g, k)
  {
    hide Pairs, Start;
  }

  /** Two places of the list: of different buckets, of one filled bucket, or both as they were. */
  lemma StillDistinct(b: seq<byte>, f: seq<int>, g: seq<int>, done: seq<bool>, ss: int, i: int, j: int)
    requires Bucketed(b, f) && |g| == |f| && 0 <= i < j < |g| && InPlace(b, g, i) && InPlace(b, g, j)
    requires Refills(b, g, done, ss) && forall k :: 0 <= k < |b| && !InRefilled(b, done, ss, k) ==> g[k] == f[k]
    ensures g[i] != g[j]
  {
    hide Pairs, Start, Rank;
    if InRefilled(b, done, ss, i) {
      var c :| Refilled(b, done, ss, c, i);
      SamePlace(b, g, i, Small(c, ss));
      if Refilled(b, done, ss, c, j) { assert PairGood(b, g, Small(c, ss), i, j); }
    } else if InRefilled(b, done, ss, j) {
      var c :| Refilled(b, done, ss, c, j);
      SamePlace(b, g, j, Small(c, ss));
      assert !Refilled(b, done, ss, c, i);
    }
  }

  lemma SortedBucket(b: seq<byte>, f: seq<int>, done: seq<bool>, ss: int, c: int)
    requires Refills(b, f, done, ss) && |done| == 256 && 0 <= ss < 256 && 0 <= c < 256 && !done[c] && |f| == |b|
    ensures BucketSorted(b, f, Small(c, ss))
  {
    hide Start, Rank, Pairs;
    var lo, hi := Start(b, Small(c, ss)), Start(b, Small(c, ss) + 1);
    StartMono(b, Small(c, ss), Small(c, ss) + 1);
    forall k, m | lo <= k <= m < hi ensures PairGood(b, f, Small(c, ss), k, m) {
      assert Refilled(b, done, ss, c, k) && Refilled(b, done, ss, c, m);
    }
    forall k | lo <= k < hi ensures 0 <= f[k] < |b| { assert PairGood(b, f, Small(c, ss), k, k); }
    forall k, m | lo <= k < m < hi ensures Rank(b)[f[k]] <= Rank(b)[f[m]] { assert PairGood(b, f, Small(c, ss), k, m); }
  }

  // ----- what a scan starts from

  /** How many entries of big bucket ss have a second byte below ss, or above it. */
  ghost function FirstCount(b: seq<byte>, ss: int, up: bool): int
    requires 0 <= ss < 256
  {
    if up then Start(b, (ss + 1) * 256) - Start(b, Small(ss, ss) + 1) else Start(b, Small(ss, ss)) - Start(b, ss * 256)
  }

  lemma BigShape(b: seq<byte>, ss: int)
    requires 0 <= ss < 256
    ensures Start(b, ss * 256) <= Start(b, Small(ss, ss)) <= Start(b, Small(ss, ss) + 1) <= Start(b, (ss + 1) * 256) <= |b|
    ensures FirstCount(b, ss, false) >= 0 && FirstCount(b, ss, true) >= 0
  {
    hide Start;
    StartMono(b, ss * 256, Small(ss, ss));
    StartMono(b, Small(ss, ss), Small(ss, ss) + 1);
    StartMono(b, Small(ss, ss) + 1, (ss + 1) * 256);
  }

  /** These entries, from the end the scan starts at. */
  ghost function First(b: seq<byte>, f: seq<int>, ss: int, up: bool): (r: seq<int>)
    requires 0 <= ss < 256 && |f| == |b|
    ensures |r| == FirstCount(b, ss, up) && forall i :: 0 <= i < |r| ==> QueueAt(b, f, ss, r, i, up)
  {
    BigShape(b, ss);
    seq(FirstCount(b, ss, up), i requires 0 <= i < FirstCount(b, ss, up) => f[QPlace(b, ss, i, up)])
  }

  /** An entry of big bucket ss below or above bucket [ss, ss]. */
  lemma FirstEntry(b: seq<byte>, f: seq<int>, ss: int, k: int, up: bool)
    requires Bucketed(b, f) && 0 <= ss < 256 && 0 <= k < |b|
    requires if up then Start(b, Small(ss, ss) + 1) <= k < Start(b, (ss + 1) * 256)
             else Start(b, ss * 256) <= k < Start(b, Small(ss, ss))
    ensures 0 <= f[k] < |b| && b[f[k]] == ss && (if up then b[Next(|b|, f[k])] > ss else b[Next(|b|, f[k])] < ss)
  {
    hide Start;
    assert InPlace(b, f, k);
    var p := Pairs(b)[f[k]];
    if p < ss * 256 { StartMono(b, p + 1, ss * 256); }
    if p >= (ss + 1) * 256 { StartMono(b, (ss + 1) * 256, p); }
    if up && p < Small(ss, ss) + 1 { StartMono(b, p + 1, Small(ss, ss) + 1); }
    if !up && p >= Small(ss, ss) { StartMono(b, Small(ss, ss), p); }
  }

  lemma FirstOnlyGood(b: seq<byte>, f: seq<int>, ss: int, up: bool)
    requires Bucketed(b, f) && 0 <= ss < 256
    ensures FirstOnly(b, ss, First(b, f, ss, up), up)
  {
    hide Start, Pairs, InPlace, Place;
    BigShape(b, ss);
    var first := First(b, f, ss, up);
    forall i | 0 <= i < |first|
      ensures 0 <= first[i] < |b| && b[first[i]] == ss
      ensures if up then b[Next(|b|, first[i])] > ss else b[Next(|b|, first[i])] < ss
    {
      assert QueueAt(b, f, ss, first, i, up);
      FirstEntry(b, f, ss, QPlace(b, ss, i, up), up);
    }
  }

  lemma FirstSortedGood(b: seq<byte>, f: seq<int>, ss: int, up: bool)
    requires Bucketed(b, f) && 0 <= ss < 256 && |f| == |b|
    requires forall j :: 0 <= j < 256 && j != ss ==> BucketSorted(b, f, Small(ss, j))
    ensures Queue(b, First(b, f, ss, up), ss) && KeySorted(Key(b, up), First(b, f, ss, up))
  {
    hide Start, Rank, Pairs, InPlace, BucketSorted, Place, Key, Bucketed;
    BigShape(b, ss);
    var first := First(b, f, ss, up);
    FirstOnlyGood(b, f, ss, up);
    forall i, j | 0 <= i < j < |first| ensures first[i] != first[j] && Key(b, up)[first[i]] <= Key(b, up)[first[j]] {
      assert QueueAt(b, f, ss, first, i, up) && QueueAt(b, f, ss, first, j, up);
      var k, m := QPlace(b, ss, i, up), QPlace(b, ss, j, up);
      FirstOrder(b, f, ss, if up then m else k, if up then k else m, up);
      KeyIs(b, up, first[i]);
      KeyIs(b, up, first[j]);
    }
  }

  lemma FirstAllGood(b: seq<byte>, f: seq<int>, ss: int, up: bool)
    requires Bucketed(b, f) && 0 <= ss < 256 && |f| == |b|
    ensures AllFirst(b, ss, First(b, f, ss, up), up)
  {
    hide Start, Rank, Pairs, InPlace, Place, Bucketed;
    BigShape(b, ss);
    var first := First(b, f, ss, up);
    BucketedPermutation(b, f);
    forall x | 0 <= x < |b| && b[x] == ss && (if up then b[Next(|b|, x)] > ss else b[Next(|b|, x)] < ss) ensures x in first {
      var k := PermutationOf(b, f, x);
      FirstFound(b, f, ss, k, up);
      var i := if up then Start(b, (ss + 1) * 256) - 1 - k else k - Start(b, ss * 256);
      assert QueueAt(b, f, ss, first, i, up);
    }
  }

  lemma PermutationOf(b: seq<byte>, f: seq<int>, x: nat) returns (k: nat)
    requires Bucketed(b, f) && x < |b|
    ensures k < |b| == |f| && f[k] == x
  {
    BucketedPermutation(b, f);
    k := PermutationHits(f, x);
  }

  lemma KeyIs(b: seq<byte>, up: bool, x: nat)
    requires x < |b|
    ensures Key(b, up)[x] == if up then -Rank(b)[x] else Rank(b)[x]
  {
    hide Rank;
  }

  lemma FirstOrder(b: seq<byte>, f: seq<int>, ss: int, k: int, m: int, up: bool)
    requires Bucketed(b, f) && 0 <= ss < 256 && 0 <= k < m < |b|
    requires if up then Start(b, Small(ss, ss) + 1) <= k && m < Start(b, (ss + 1) * 256)
             else Start(b, ss * 256) <= k && m < Start(b, Small(ss, ss))
    requires forall j :: 0 <= j < 256 && j != ss ==> BucketSorted(b, f, Small(ss, j))
    ensures 0 <= f[k] < |b| && 0 <= f[m] < |b| && f[k] != f[m] && Rank(b)[f[k]] <= Rank(b)[f[m]]
  {
    hide Start, Rank, BucketSorted, InPlace;
    FirstEntry(b, f, ss, k, up);
    FirstEntry(b, f, ss, m, up);
    assert Pairs(b)[f[k]] == Small(ss, b[Next(|b|, f[k])]);
    AcrossBuckets(b, f, k, m);
  }

  lemma FirstFound(b: seq<byte>, f: seq<int>, ss: int, k: int, up: bool)
    requires Bucketed(b, f) && 0 <= ss < 256 && 0 <= k < |b| && 0 <= f[k] < |b| && b[f[k]] == ss
    requires if up then b[Next(|b|, f[k])] > ss else b[Next(|b|, f[k])] < ss
    ensures if up then Start(b, Small(ss, ss) + 1) <= k < Start(b, (ss + 1) * 256)
            else Start(b, ss * 256) <= k < Start(b, Small(ss, ss))
  {
    hide Start;
    assert InPlace(b, f, k);
    var p := Pairs(b)[f[k]];
    assert p == ss * 256 + b[Next(|b|, f[k])];
    if up {
      StartMono(b, Small(ss, ss) + 1, p);
      StartMono(b, p + 1, (ss + 1) * 256);
    } else {
      StartMono(b, ss * 256, p);
      StartMono(b, p + 1, Small(ss, ss));
    }
  }

  /** A block of one byte only: all its rotations are the same. */
  lemma OneByte(b: seq<byte>, f: seq<int>, ss: int, c: int)
    requires Bucketed(b, f) && 0 <= ss < 256 && 0 <= c < 256 && forall z :: 0 <= z < |b| ==> b[z] == ss
    ensures BucketSorted(b, f, Small(c, ss))
    ensures Start(b, Small(ss, ss)) == 0 && Start(b, Small(ss, ss) + 1) == |b|
  {
    hide Start, Rank, Pairs;
    OneByteStarts(b, ss);
    StartMono(b, Small(c, ss), Small(c, ss) + 1);
    forall x, y | 0 <= x < |b| && 0 <= y < |b| ensures Rank(b)[x] <= Rank(b)[y] {
      OneByteEqual(b, ss, x, y, |b|);
      RankOrder(b, x, y);
    }
    forall k | 0 <= k < |f| ensures 0 <= f[k] < |b| { assert InPlace(b, f, k); }
  }

  lemma {:induction false} OneByteEqual(b: seq<byte>, ss: int, x: nat, y: nat, k: nat)
    requires x < |b| && y < |b| && forall z :: 0 <= z < |b| ==> b[z] == ss
    ensures Cmp(b, x, y, k) == 0
    decreases k
  {
    if k > 0 { OneByteEqual(b, ss, Next(|b|, x), Next(|b|, y), k - 1); }
  }

  lemma OneByteStarts(b: seq<byte>, ss: int)
    requires 0 <= ss < 256 && forall z :: 0 <= z < |b| ==> b[z] == ss
    ensures Start(b, Small(ss, ss)) == 0 && Start(b, Small(ss, ss) + 1) == |b|
  {
    forall x | 0 <= x < |b| ensures Pairs(b)[x] == Small(ss, ss) {
      assert b[x] == ss && b[Next(|b|, x)] == ss;
    }
    NoneBelow(Pairs(b), Small(ss, ss), Small(ss, ss));
    BelowFull(Pairs(b), Small(ss, ss) + 1);
  }

  lemma {:induction false} NoneBelow(s: seq<int>, v: nat, c: nat)
    requires (forall i :: 0 <= i < |s| ==> s[i] == v) && c <= v
    ensures Below(s, c) == 0
    decreases c
  {
    if c > 0 {
      NoneBelow(s, v, c - 1);
      if Occ(s, 0, |s|, c - 1) > 0 { var j := OccWitness(s, 0, |s|, c - 1); }
    }
  }

  // ----- the scans

  /** The fill pointers: one past what is written of each bucket still to do. */
  ghost predicate Pointers(b: seq<byte>, done: seq<bool>, ss: int, q: seq<int>, up: bool, copy: seq<int>)
  {
    |copy| == |done| == 256 && 0 <= ss < 256 && forall c :: 0 <= c < 256 && !done[c] ==> PointsAt(b, ss, q, c, up, copy)
  }

  ghost predicate PointsAt(b: seq<byte>, ss: int, q: seq<int>, c: int, up: bool, copy: seq<int>)
  {
    |copy| == 256 && 0 <= c < 256 && 0 <= ss < 256 && copy[c] == Place(b, ss, c, |Preds(b, q, c)|, up)
  }

  lemma PointersStart(b: seq<byte>, done: seq<bool>, ss: int, up: bool, copy: seq<int>)
    requires |copy| == |done| == 256 && 0 <= ss < 256
    requires forall c :: 0 <= c < 256 ==> copy[c] == if up then Start(b, Small(c, ss) + 1) - 1 else Start(b, Small(c, ss))
    ensures Pointers(b, done, ss, [], up, copy)
  {
    hide Start;
  }

  /** One more entry is processed. */
  lemma PointersStep(b: seq<byte>, done: seq<bool>, ss: int, q: seq<int>, t: nat, up: bool, copy: seq<int>)
    requires t < |q| && 0 <= q[t] < |b| && Pointers(b, done, ss, q[..t], up, copy)
    ensures var c := b[Prev(|b|, q[t])];
            Pointers(b, done, ss, q[..t + 1], up, if done[c] then copy else copy[c := copy[c] + (if up then -1 else 1)])
  {
    hide Start, Preds;
    var c := b[Prev(|b|, q[t])];
    var copy' := if done[c] then copy else copy[c := copy[c] + (if up then -1 else 1)];
    var q1 := q[..t + 1];
    forall d | 0 <= d < 256 && !done[d] ensures PointsAt(b, ss, q1, d, up, copy') {
      assert PointsAt(b, ss, q[..t], d, up, copy);
      PredsStep(b, q, t, d);
    }
  }

  /** Where the scan reads, and where its queue ends. */
  lemma ScanWindow(b: seq<byte>, f0: seq<int>, f: seq<int>, done: seq<bool>, ss: int, first: seq<int>, q: seq<int>,
                   t: int, up: bool, copy: seq<int>)
    requires Scanned(b, f0, f, done, ss, first, q, t, up) && Pointers(b, done, ss, q[..t], up, copy)
    ensures 0 <= ss < 256 && 0 <= t <= |q| && copy[ss] == QPlace(b, ss, |q|, up) && |f| == |b|
    ensures |q| <= Start(b, (ss + 1) * 256) - Start(b, ss * 256)
    ensures t < |q| ==> 0 <= QPlace(b, ss, t, up) < |f| && f[QPlace(b, ss, t, up)] == q[t] && 0 <= q[t] < |b|
  {
    hide Start, Preds, Kept;
    assert PointsAt(b, ss, q[..t], ss, up, copy);
    assert Written(b, f, ss, Preds(b, q[..t], ss), ss, up);
    QueueGrows(b, ss, first, Preds(b, q[..t], ss), up);
    QueueFits(b, f, ss, first, Preds(b, q[..t], ss), up);
    if t < |q| { assert QueueAt(b, f, ss, q, t, up); }
  }

  /** The queue with the next predecessor, if it belongs there. */
  ghost function Longer(b: seq<byte>, done: seq<bool>, ss: int, q: seq<int>, t: nat): (r: seq<int>)
    requires t < |q| && 0 <= q[t] < |b|
  {
    var x := Prev(|b|, q[t]);
    if b[x] == ss then q + [x] else q
  }

  /** A turn of a scan: what is put where, given that there is room. */
  lemma ScanTurn(b: seq<byte>, f0: seq<int>, f: seq<int>, done: seq<bool>, ss: int, first: seq<int>, q: seq<int>, t: nat,
                 up: bool, copy: seq<int>)
    requires Scanned(b, f0, f, done, ss, first, q, t, up) && t < |q| && Pointers(b, done, ss, q[..t], up, copy)
    requires var c := b[Prev(|b|, q[t])];
             !done[c] ==> |Preds(b, q[..t + 1], c)| <= Start(b, Small(c, ss) + 1) - Start(b, Small(c, ss))
    ensures 0 <= q[t] < |b|
    ensures var x := Prev(|b|, q[t]); var c := b[x]; var q' := Longer(b, done, ss, q, t);
            && (!done[c] ==> 0 <= copy[c] < |f|)
            && Scanned(b, f0, if done[c] then f else Put(f, copy[c], x), done, ss, first, q', t + 1, up)
            && Pointers(b, done, ss, q'[..t + 1], up,
                        if done[c] then copy else copy[c := copy[c] + (if up then -1 else 1)])
  {
    hide Start, Preds, Place, Kept, Written, QueueAt, GoodQueue;
    var x := Prev(|b|, q[t]);
    var c := b[x];
    var q' := Longer(b, done, ss, q, t);
    assert q'[..t + 1] == q[..t + 1];
    PointersStep(b, done, ss, q, t, up, copy);
    PredsStep(b, q, t, c);
    if done[c] {
      ScanSkip(b, f0, f, done, ss, first, q, t, up);
    } else {
      assert PointsAt(b, ss, q[..t], c, up, copy);
      ScanPut(b, f0, f, done, ss, first, q, t, up);
    }
  }

  /** The scan from the low end. */
  method ScanLow(ptr: array<int>, block: array<int>, copyStart: array<int>, bigDone: seq<bool>, ss: int, nblock: nat,
                 start: int, ghost b: seq<byte>, ghost first: seq<int>) returns (ghost q: seq<int>)
    requires ptr != block && ptr != copyStart && block != copyStart && nblock == |b| <= ptr.Length && Overshot(block[..], b)
    requires copyStart.Length == |bigDone| == 256 && 0 <= ss < 256 && start == Start(b, ss * 256)
    requires Scanned(b, ptr[..nblock], ptr[..nblock], bigDone, ss, first, first, 0, false)
    requires Pointers(b, bigDone, ss, [], false, copyStart[..])
    modifies ptr, copyStart
    ensures Scanned(b, old(ptr[..nblock]), ptr[..nblock], bigDone, ss, first, q, |q|, false)
    ensures Pointers(b, bigDone, ss, q, false, copyStart[..])
    ensures ptr[nblock..] == old(ptr[nblock..])
  {
    hide Scanned, Pointers, Start, Preds, Overshot;
    ghost var f0 := ptr[..nblock];
    ghost var t := 0;
    q := first;
    assert q[..0] == [];
    var j := start;
    ScanWindow(b, f0, f0, bigDone, ss, first, q, t, false, copyStart[..]);
    BigShape(b, ss);
    while j < copyStart[ss]
      invariant j == start + t && 0 <= t && Scanned(b, f0, ptr[..nblock], bigDone, ss, first, q, t, false)
      invariant t <= |q| && Pointers(b, bigDone, ss, q[..t], false, copyStart[..]) && Overshot(block[..], b)
      invariant copyStart[ss] == QPlace(b, ss, |q|, false) && |q| <= |b|
      invariant ptr[nblock..] == old(ptr[nblock..])
      decreases |b| - t
    {
      ghost var f, copy := ptr[..nblock], copyStart[..];
      ScanWindow(b, f0, f, bigDone, ss, first, q, t, false, copy);
      assert ptr[j] == f[j] == q[t];
      var k := ptr[j] - 1;
      if k < 0 { k := k + nblock; }
      assert k == Prev(|b|, q[t]);
      BlockByte(block[..], b, k);
      var c1 := block[k];
      HasRoom(b, f0, f, bigDone, ss, first, q, t, c1, false);
      ScanTurn(b, f0, f, bigDone, ss, first, q, t, false, copy);
      if !bigDone[c1] {
        ptr[copyStart[c1]] := k;
        copyStart[c1] := copyStart[c1] + 1;
      }
      assert ptr[..nblock] == if bigDone[c1] then f else Put(f, copy[c1], k);
      assert copyStart[..] == if bigDone[c1] then copy else copy[c1 := copy[c1] + 1];
      q := Longer(b, bigDone, ss, q, t);
      t := t + 1;
      j := j + 1;
      ScanWindow(b, f0, ptr[..nblock], bigDone, ss, first, q, t, false, copyStart[..]);
      BigShape(b, ss);
    }
    ScanWindow(b, f0, ptr[..nblock], bigDone, ss, first, q, t, false, copyStart[..]);
    assert t == |q| && q[..t] == q;
  }

  lemma BlockByte(block: seq<int>, b: seq<byte>, k: nat)
    requires Overshot(block, b) && k < |b|
    ensures k < |block| && block[k] == b[k]
  {
    assert block[k] == b[Wrap(|b|, k)];
  }

  lemma HasRoom(b: seq<byte>, f0: seq<int>, f: seq<int>, done: seq<bool>, ss: int, first: seq<int>, q: seq<int>, t: nat,
                c: int, up: bool)
    requires Scanned(b, f0, f, done, ss, first, q, t, up) && t < |q| && 0 <= c < 256
    ensures |Preds(b, q[..t + 1], c)| <= Start(b, Small(c, ss) + 1) - Start(b, Small(c, ss))
  {
    hide Start, Preds, Kept, Written, QueueAt, GoodQueue;
    QueuePrefix(b, q, ss, t + 1);
    PredsNone(b, c);
    Room(b, ss, q[..t + 1], [], c);
  }

  /** The scan from the high end. */
  method ScanHigh(ptr: array<int>, block: array<int>, copyEnd: array<int>, bigDone: seq<bool>, ss: int, nblock: nat,
                  end: int, ghost b: seq<byte>, ghost first: seq<int>) returns (ghost q: seq<int>)
    requires ptr != block && ptr != copyEnd && block != copyEnd && nblock == |b| <= ptr.Length && Overshot(block[..], b)
    requires copyEnd.Length == |bigDone| == 256 && 0 <= ss < 256 && end == Start(b, (ss + 1) * 256) - 1
    requires Scanned(b, ptr[..nblock], ptr[..nblock], bigDone, ss, first, first, 0, true)
    requires Pointers(b, bigDone, ss, [], true, copyEnd[..])
    modifies ptr, copyEnd
    ensures Scanned(b, old(ptr[..nblock]), ptr[..nblock], bigDone, ss, first, q, |q|, true)
    ensures Pointers(b, bigDone, ss, q, true, copyEnd[..])
    ensures ptr[nblock..] == old(ptr[nblock..])
  {
    hide Scanned, Pointers, Start, Preds, Overshot;
    ghost var f0 := ptr[..nblock];
    ghost var t := 0;
    q := first;
    assert q[..0] == [];
    var j := end;
    ScanWindow(b, f0, f0, bigDone, ss, first, q, t, true, copyEnd[..]);
    BigShape(b, ss);
    while j > copyEnd[ss]
      invariant j == end - t && 0 <= t && Scanned(b, f0, ptr[..nblock], bigDone, ss, first, q, t, true)
      invariant t <= |q| && Pointers(b, bigDone, ss, q[..t], true, copyEnd[..]) && Overshot(block[..], b)
      invariant copyEnd[ss] == QPlace(b, ss, |q|, true) && |q| <= |b|
      invariant ptr[nblock..] == old(ptr[nblock..])
      decreases |b| - t
    {
      ghost var f, copy := ptr[..nblock], copyEnd[..];
      ScanWindow(b, f0, f, bigDone, ss, first, q, t, true, copy);
      assert ptr[j] == f[j] == q[t];
      var k := ptr[j] - 1;
      if k < 0 { k := k + nblock; }
      assert k == Prev(|b|, q[t]);
      BlockByte(block[..], b, k);
      var c1 := block[k];
      HasRoom(b, f0, f, bigDone, ss, first, q, t, c1, true);
      ScanTurn(b, f0, f, bigDone, ss, first, q, t, true, copy);
      if !bigDone[c1] {
        ptr[copyEnd[c1]] := k;
        copyEnd[c1] := copyEnd[c1] - 1;
      }
      assert ptr[..nblock] == if bigDone[c1] then f else Put(f, copy[c1], k);
      assert copyEnd[..] == if bigDone[c1] then copy else copy[c1 := copy[c1] - 1];
      q := Longer(b, bigDone, ss, q, t);
      t := t + 1;
      j := j - 1;
      ScanWindow(b, f0, ptr[..nblock], bigDone, ss, first, q, t, true, copyEnd[..]);
      BigShape(b, ss);
    }
    ScanWindow(b, f0, ptr[..nblock], bigDone, ss, first, q, t, true, copyEnd[..]);
    assert t == |q| && q[..t] == q;
  }

  // ----- the table of bucket starts, and the whole of step 2

  const SETMASK := 0x20_0000

  function Clear(v: int): int { v % SETMASK }

  function Marked(v: int): bool { v >= SETMASK }

  /** ftab: where each small bucket starts, with a mark on those known to be in order. */
  ghost predicate Table(b: seq<byte>, ftab: seq<int>)
  {
    |ftab| == 65537 && forall sb :: 0 <= sb < |ftab| ==> TableAt(b, ftab, sb)
  }

  ghost predicate TableAt(b: seq<byte>, ftab: seq<int>, sb: int)
  {
    0 <= sb < |ftab| && (ftab[sb] == Start(b, sb) || ftab[sb] == Start(b, sb) + SETMASK)
  }

  lemma ClearIs(b: seq<byte>, ftab: seq<int>, sb: nat)
    requires Table(b, ftab) && sb < |ftab| && |b| <= 900_000
    ensures Clear(ftab[sb]) == Start(b, sb)
  {
    hide Start;
    assert TableAt(b, ftab, sb);
    StartMono(b, sb, sb);
  }

  /** The scan from the high end starts from what the low scan has left alone. */
  lemma FirstLeft(b: seq<byte>, f0: seq<int>, f1: seq<int>, done: seq<bool>, ss: int, firstQ: seq<int>, q: seq<int>)
    requires Scanned(b, f0, f1, done, ss, firstQ, q, |q|, false)
    ensures First(b, f1, ss, true) == First(b, f0, ss, true)
  {
    hide Start, Preds, Written, Queue, GoodQueue, QueueAt, Untouched;
    BigShape(b, ss);
    assert q[..|q|] == q;
    var r, s := First(b, f1, ss, true), First(b, f0, ss, true);
    forall i | 0 <= i < |r| ensures r[i] == s[i] {
      assert QueueAt(b, f1, ss, r, i, true) && QueueAt(b, f0, ss, s, i, true);
      var k := QPlace(b, ss, i, true);
      LowLeaves(b, f0, f1, done, ss, firstQ, q, k);
      AtQueue(b, f1, ss, r, i, true);
      AtQueue(b, f0, ss, s, i, true);
    }
  }

  lemma AtQueue(b: seq<byte>, f: seq<int>, ss: int, q: seq<int>, i: int, up: bool)
    requires QueueAt(b, f, ss, q, i, up)
    ensures 0 <= QPlace(b, ss, i, up) < |f| && 0 <= i < |q| && f[QPlace(b, ss, i, up)] == q[i]
  {
  }

  lemma LowLeaves(b: seq<byte>, f0: seq<int>, f1: seq<int>, done: seq<bool>, ss: int, firstQ: seq<int>, q: seq<int>, k: int)
    requires Scanned(b, f0, f1, done, ss, firstQ, q, |q|, false)
    requires Start(b, Small(ss, ss) + 1) <= k < Start(b, (ss + 1) * 256)
    ensures 0 <= k < |f1| == |f0| && f1[k] == f0[k]
  {
    hide Start, Preds, Queue, GoodQueue, QueueAt;
    BigShape(b, ss);
    assert q[..|q|] == q;
    forall c, i | 0 <= c < 256 && !done[c] && 0 <= i < |Preds(b, q, c)| ensures k != Place(b, ss, c, i, false) {
      assert Written(b, f1, ss, Preds(b, q, c), c, false);
      if c != ss { PlaceOutside(b, ss, c, i, false); }
    }
    assert Kept(b, f0, f1, done, ss, q, false, k) && Untouched(b, done, ss, q, false, k);
  }

  /** Some byte other than ss, if there is one. */
  ghost predicate OnlyByte(b: seq<byte>, ss: int)
  {
    forall z :: 0 <= z < |b| ==> b[z] == ss
  }

  /** What step 2 leaves. */
  ghost predicate Synthesised(b: seq<byte>, f0: seq<int>, f: seq<int>, done: seq<bool>, ss: int)
  {
    && |done| == 256 && 0 <= ss < 256 && |f| == |f0| == |b| && Bucketed(b, f)
    && (forall c :: 0 <= c < 256 && !done[c] ==> BucketSorted(b, f, Small(c, ss)))
    && forall k :: 0 <= k < |b| && !InRefilled(b, done, ss, k) ==> f[k] == f0[k]
  }

  /** Step 2: the buckets [c, ss] still to do, and [ss, ss], from the big bucket ss. */
  method Synthesise(ptr: array<int>, block: array<int>, ftab: array<int>, bigDone: seq<bool>, ss: int, nblock: nat,
                    ghost b: seq<byte>)
    requires ptr != block && ptr != ftab && nblock == |b| <= 900_000 && nblock <= ptr.Length && Overshot(block[..], b)
    requires |bigDone| == 256 && 0 <= ss < 256 && !bigDone[ss] && Table(b, ftab[..]) && Bucketed(b, ptr[..nblock])
    requires forall j :: 0 <= j < 256 && j != ss ==> BucketSorted(b, ptr[..nblock], Small(ss, j))
    modifies ptr
    ensures Synthesised(b, old(ptr[..nblock]), ptr[..nblock], bigDone, ss)
    ensures ptr[nblock..] == old(ptr[nblock..])
  {
    hide Scanned, Pointers, Start, Preds, Overshot, Table, Bucketed, BucketSorted, Synthesised, First, Clear, Place;
    ghost var f0 := ptr[..nblock];
    var copyStart, copyEnd := new int[256], new int[256];
    var j := 0;
    while j < 256
      invariant 0 <= j <= 256
      invariant forall c :: 0 <= c < j ==> copyStart[c] == Start(b, Small(c, ss)) && copyEnd[c] == Start(b, Small(c, ss) + 1) - 1
      modifies copyStart, copyEnd
    {
      TableSize(b, ftab[..]);
      ClearIs(b, ftab[..], Small(j, ss));
      ClearIs(b, ftab[..], Small(j, ss) + 1);
      copyStart[j] := Clear(ftab[j * 256 + ss]);
      copyEnd[j] := Clear(ftab[j * 256 + ss + 1]) - 1;
      j := j + 1;
    }
    assert ptr[..nblock] == f0;
    ghost var firstQ, firstR := First(b, f0, ss, false), First(b, f0, ss, true);
    PointersStart(b, bigDone, ss, false, copyStart[..]);
    PointersStart(b, bigDone, ss, true, copyEnd[..]);
    LowStart(b, f0, bigDone, ss);
    TableSize(b, ftab[..]);
    ClearIs(b, ftab[..], ss * 256);
    ClearIs(b, ftab[..], (ss + 1) * 256);
    ghost var q := ScanLow(ptr, block, copyStart, bigDone, ss, nblock, Clear(ftab[ss * 256]), b, firstQ);
    ghost var f1 := ptr[..nblock];
    HighStart(b, f0, f1, bigDone, ss, firstQ, q);
    ghost var r := ScanHigh(ptr, block, copyEnd, bigDone, ss, nblock, Clear(ftab[(ss + 1) * 256]) - 1, b, firstR);
    ScansMeet(b, f0, f1, ptr[..nblock], bigDone, ss, firstQ, q, firstR, r, copyStart[..], copyEnd[..]);
    // assertion 1007
    assert copyStart[ss] - 1 == copyEnd[ss] || (copyStart[ss] == 0 && copyEnd[ss] == nblock - 1);
  }

  lemma TableSize(b: seq<byte>, ftab: seq<int>)
    requires Table(b, ftab)
    ensures |ftab| == 65537
  {
  }

  lemma LowStart(b: seq<byte>, f: seq<int>, done: seq<bool>, ss: int)
    requires |done| == 256 && 0 <= ss < 256 && !done[ss] && Bucketed(b, f)
    requires forall j :: 0 <= j < 256 && j != ss ==> BucketSorted(b, f, Small(ss, j))
    ensures |f| == |b| && Scanned(b, f, f, done, ss, First(b, f, ss, false), First(b, f, ss, false), 0, false)
  {
    hide Scanned, Start, BucketSorted, First, FirstOnly, KeySorted, Queue, QueueAt, InPlace;
    FirstOnlyGood(b, f, ss, false);
    FirstSortedGood(b, f, ss, false);
    ScanStart(b, f, done, ss, First(b, f, ss, false), false);
  }

  lemma HighStart(b: seq<byte>, f0: seq<int>, f1: seq<int>, done: seq<bool>, ss: int, firstQ: seq<int>, q: seq<int>)
    requires |done| == 256 && 0 <= ss < 256 && !done[ss] && Bucketed(b, f0)
    requires forall j :: 0 <= j < 256 && j != ss ==> BucketSorted(b, f0, Small(ss, j))
    requires Scanned(b, f0, f1, done, ss, firstQ, q, |q|, false)
    ensures |f0| == |b| && Scanned(b, f1, f1, done, ss, First(b, f0, ss, true), First(b, f0, ss, true), 0, true)
  {
    hide Scanned, Start, BucketSorted, First, FirstOnly, KeySorted, Queue, QueueAt, InPlace;
    FirstOnlyGood(b, f0, ss, true);
    FirstSortedGood(b, f0, ss, true);
    ScannedShape(b, f0, f1, done, ss, firstQ, q, |q|, false);
    FirstLeft(b, f0, f1, done, ss, firstQ, q);
    ScanStart(b, f1, done, ss, First(b, f1, ss, true), true);
  }

  lemma ScannedShape(b: seq<byte>, f0: seq<int>, f: seq<int>, done: seq<bool>, ss: int, first: seq<int>, q: seq<int>,
                     t: int, up: bool)
    requires Scanned(b, f0, f, done, ss, first, q, t, up)
    ensures |f| == |f0| == |b| && Queue(b, q, ss) && AllEnd(b, ss, q, up)
  {
  }

  /** Both scans done: the buckets are filled, and the two fill pointers of [ss, ss] have met, or nothing has moved. */
  lemma ScansMeet(b: seq<byte>, f0: seq<int>, f1: seq<int>, f2: seq<int>, done: seq<bool>, ss: int,
                  firstQ: seq<int>, q: seq<int>, firstR: seq<int>, r: seq<int>, copyStart: seq<int>, copyEnd: seq<int>)
    requires BothScanned(b, f0, f1, f2, done, ss, firstQ, q, firstR, r) && Bucketed(b, f0) && !done[ss]
    requires firstQ == First(b, f0, ss, false) && firstR == First(b, f0, ss, true)
    requires Pointers(b, done, ss, q, false, copyStart) && Pointers(b, done, ss, r, true, copyEnd)
    ensures Synthesised(b, f0, f2, done, ss)
    ensures copyStart[ss] - 1 == copyEnd[ss] || (copyStart[ss] == 0 && copyEnd[ss] == |b| - 1)
  {
    hide Scanned, Start, BucketSorted, First, AllFirst, Queue, Preds, Bucketed, InRefilled, Filled, AllEnd;
    BothShape(b, f0, f1, f2, done, ss, firstQ, q, firstR, r);
    assert PointsAt(b, ss, q, ss, false, copyStart) && PointsAt(b, ss, r, ss, true, copyEnd);
    if z: nat :| z < |b| && b[z] != ss {
      FirstAllGood(b, f0, ss, false);
      FirstAllGood(b, f0, ss, true);
      ScansDone(b, f0, f1, f2, done, ss, firstQ, q, firstR, r, z);
      BucketFilled(b, f0, f1, f2, done, ss, firstQ, q, firstR, r, z, ss);
      FilledSizes(b, f2, ss, ss, Preds(b, q, ss), Preds(b, r, ss));
    } else {
      NothingScanned(b, f0, f1, f2, done, ss, firstQ, q, firstR, r);
      forall c | 0 <= c < 256 ensures BucketSorted(b, f2, Small(c, ss)) {
        OneByte(b, f2, ss, c);
      }
      OneByte(b, f2, ss, ss);
      PredsNone(b, ss);
    }
  }

  lemma FilledSizes(b: seq<byte>, f: seq<int>, ss: int, c: int, w: seq<int>, v: seq<int>)
    requires Filled(b, f, ss, c, w, v)
    ensures |w| + |v| == Start(b, Small(c, ss) + 1) - Start(b, Small(c, ss))
  {
  }

  /** A block of one byte only: there is nothing to start the scans from. */
  lemma NothingScanned(b: seq<byte>, f0: seq<int>, f1: seq<int>, f2: seq<int>, done: seq<bool>, ss: int,
                       firstQ: seq<int>, q: seq<int>, firstR: seq<int>, r: seq<int>)
    requires BothScanned(b, f0, f1, f2, done, ss, firstQ, q, firstR, r) && OnlyByte(b, ss)
    ensures q == [] && r == [] && f2 == f0
  {
    hide Start, Preds, Queue, Written, QueueAt, KeySorted, Key;
    NoEnds(b, ss, q, false);
    NoEnds(b, ss, r, true);
    forall k | 0 <= k < |f2| ensures f2[k] == f0[k] {
      forall c ensures Preds(b, [], c) == [] { PredsNone(b, c); }
      assert Kept(b, f1, f2, done, ss, r[..|r|], true, k) && Untouched(b, done, ss, r[..|r|], true, k);
      assert Kept(b, f0, f1, done, ss, q[..|q|], false, k) && Untouched(b, done, ss, q[..|q|], false, k);
    }
  }

  lemma NoEnds(b: seq<byte>, ss: int, q: seq<int>, up: bool)
    requires AllEnd(b, ss, q, up) && OnlyByte(b, ss)
    ensures q == []
  {
    if q != [] {
      assert Ends(b, ss, q[0], up);
      var k: nat :| RunEnds(b, ss, q[0], k, up);
      NoRun(b, ss, q[0], k, up);
    }
  }

  lemma {:induction false} NoRun(b: seq<byte>, ss: int, x: int, k: nat, up: bool)
    requires OnlyByte(b, ss)
    ensures !RunEnds(b, ss, x, k, up)
    decreases k
  {
    if k > 1 && 0 <= x < |b| { NoRun(b, ss, Next(|b|, x), k - 1, up); }
  }
}
