/** Move-to-front with zero runs in bijective base 2, as a machine that reads one symbol at a time. */
module MtfSpec {
  import opened Permutations

  const RUNA := 0
  const RUNB := 1
  const MAX_WEIGHT := 2 * 1024 * 1024

  /** l with its entry k moved to the front. */
  function MoveToFront(l: seq<int>, k: nat): (r: seq<int>)
    requires k < |l|
    ensures |r| == |l|
  {
    [l[k]] + l[..k] + l[k + 1..]
  }

  lemma MoveToFrontAt(l: seq<int>, k: nat)
    requires k < |l|
    ensures var r := MoveToFront(l, k);
            && r[0] == l[k]
            && (forall i :: 1 <= i <= k ==> r[i] == l[i - 1])
            && forall i :: k < i < |l| ==> r[i] == l[i]
  {
  }

  /** The list both sides start from. */
  function Identity(n: nat): (r: seq<int>)
    ensures |r| == n && forall k :: 0 <= k < n ==> r[k] == k
  {
    seq(n, k => k)
  }

  function Repeat(x: int, n: nat): (r: seq<int>)
    ensures |r| == n && forall i :: 0 <= i < n ==> r[i] == x
  {
    if n == 0 then [] else Repeat(x, n - 1) + [x]
  }

  /** The decoder between symbols: what it has put out, its list, the run being read and the weight of the next
      run digit. Bad: it has reported a data error. */
  datatype State = Bad | Going(out: seq<int>, list: seq<int>, run: nat, weight: nat)

  function Start(list: seq<int>): State
  {
    Going([], list, 0, 1)
  }

  /** End of a run: the front of the list, that many times, unless the block overflows. */
  function Flush(s: State, maxBlock: nat): State
  {
    if s.Bad? || s.list == [] then Bad
    else if |s.out| + s.run > maxBlock then Bad
    else Going(s.out + Repeat(s.list[0], s.run), s.list, 0, 1)
  }

  /** One symbol: a run digit, or a list position plus one. */
  function Step(s: State, sym: int, maxBlock: nat): State
  {
    if s.Bad? then Bad
    else if sym == RUNA || sym == RUNB then
      if s.weight >= MAX_WEIGHT then Bad
      else s.(run := s.run + (sym + 1) * s.weight, weight := 2 * s.weight)
    else
      var t := Flush(s, maxBlock);
      if t.Bad? || !(0 <= sym - 1 < |t.list|) || |t.out| >= maxBlock then Bad
      else Going(t.out + [t.list[sym - 1]], MoveToFront(t.list, sym - 1), 0, 1)
  }

  /** The machine after all of syms. */
  function Read(syms: seq<int>, list: seq<int>, maxBlock: nat): State
  {
    if syms == [] then Start(list)
    else Step(Read(syms[..|syms| - 1], list, maxBlock), syms[|syms| - 1], maxBlock)
  }

  lemma ReadSnoc(syms: seq<int>, x: int, list: seq<int>, maxBlock: nat)
    ensures Read(syms + [x], list, maxBlock) == Step(Read(syms, list, maxBlock), x, maxBlock)
  {
    assert (syms + [x])[..|syms|] == syms;
  }

  /** What a whole symbol stream (without its end mark) decodes to. */
  function Decoded(syms: seq<int>, list: seq<int>, maxBlock: nat): State
  {
    Flush(Read(syms, list, maxBlock), maxBlock)
  }

  // ----- encoding, and decoding undoing it

  /** The digits the encoder sends for a run of z front symbols. */
  function RunDigits(z: nat): (r: seq<int>)
    ensures |r| <= z
  {
    if z == 0 then []
    else [(z - 1) % 2] + (if z - 1 < 2 then [] else RunDigits((z - 1 - 2) / 2 + 1))
  }

  /** The first position of c in l, or |l|. */
  function IndexOf(l: seq<int>, c: int): (k: nat)
    ensures k <= |l| && (k < |l| ==> l[k] == c)
  {
    if l == [] || l[0] == c then 0 else 1 + IndexOf(l[1..], c)
  }

  lemma {:induction false} IndexOfFound(l: seq<int>, c: int, m: nat)
    requires m < |l| && l[m] == c
    requires forall i :: 0 <= i < m ==> l[i] != c
    ensures IndexOf(l, c) == m
  {
    if m > 0 { IndexOfFound(l[1..], c, m - 1); }
  }

  lemma {:induction false} IndexOfMember(l: seq<int>, c: int)
    requires c in l
    ensures IndexOf(l, c) < |l|
  {
    if l[0] != c { IndexOfMember(l[1..], c); }
  }

  /** The encoder between bytes: symbols sent, its list, and front symbols counted but not sent. */
  datatype Encoder = Encoder(syms: seq<int>, list: seq<int>, pending: nat)

  function Encode(e: Encoder, c: int): (r: Encoder)
  {
    if e.list != [] && e.list[0] == c then e.(pending := e.pending + 1)
    else var j := IndexOf(e.list, c);
         if j < |e.list| then Encoder(e.syms + RunDigits(e.pending) + [j + 1], MoveToFront(e.list, j), 0) else e
  }

  /** The encoder after the first k entries of col. */
  function Encoded(col: seq<int>, k: nat, list: seq<int>): (r: Encoder)
    requires k <= |col|
    ensures |r.list| == |list|
    ensures |r.syms| + r.pending <= k
  {
    if k == 0 then Encoder([], list, 0) else Encode(Encoded(col, k - 1, list), col[k - 1])
  }

  /** All symbols of a column, without the end mark. */
  function EncodedColumn(col: seq<int>, list: seq<int>): (r: seq<int>)
    ensures |r| <= |col|
  {
    var e := Encoded(col, |col|, list);
    e.syms + RunDigits(e.pending)
  }

  /** The list holds every number below n. */
  ghost predicate Lists(l: seq<int>, n: nat)
  {
    forall c :: 0 <= c < n ==> c in l
  }

  lemma MoveLists(l: seq<int>, k: nat, n: nat)
    requires k < |l| && Lists(l, n)
    ensures Lists(MoveToFront(l, k), n)
  {
    var m := MoveToFront(l, k);
    MoveToFrontAt(l, k);
    forall c | 0 <= c < n ensures c in m {
      assert c in l;
      var i :| 0 <= i < |l| && l[i] == c;
      assert if i == k then m[0] == c else if i < k then m[i + 1] == c else m[i] == c;
    }
  }

  lemma {:induction false} EncodedLists(col: seq<int>, k: nat, list: seq<int>, n: nat)
    requires k <= |col| && Lists(list, n)
    ensures Lists(Encoded(col, k, list).list, n)
  {
    if k > 0 {
      EncodedLists(col, k - 1, list, n);
      var l := Encoded(col, k - 1, list).list;
      if IndexOf(l, col[k - 1]) < |l| { MoveLists(l, IndexOf(l, col[k - 1]), n); }
    }
  }

  /** Reading the digits of z adds z, at the current weight, to the run. */
  lemma {:induction false} ReadDigits(syms: seq<int>, list: seq<int>, maxBlock: nat, s: State, z: nat, total: nat)
    requires Read(syms, list, maxBlock) == s && s.Going? && s.weight >= 1
    requires s.run + s.weight * z == total < MAX_WEIGHT
    ensures exists w: nat :: Read(syms + RunDigits(z), list, maxBlock) == s.(run := total, weight := w)
    decreases z
  {
    hide Read, Flush, MoveToFront, Repeat, RunDigits;
    if z == 0 {
      NoDigits();
      assert syms + RunDigits(0) == syms;
      assert Read(syms + RunDigits(0), list, maxBlock) == s.(run := total, weight := s.weight);
    } else {
      var d := (z - 1) % 2;
      var rest := if z - 1 < 2 then 0 else (z - 1 - 2) / 2 + 1;
      RunDigit(s.run, s.weight, z, total);
      ReadSnoc(syms, d, list, maxBlock);
      var s' := s.(run := s.run + (d + 1) * s.weight, weight := 2 * s.weight);
      ReadDigits(syms + [d], list, maxBlock, s', rest, total);
      DigitsSplit(z, d, rest);
      assert syms + RunDigits(z) == syms + [d] + RunDigits(rest);
      var w: nat :| Read(syms + [d] + RunDigits(rest), list, maxBlock) == s'.(run := total, weight := w);
      assert Read(syms + RunDigits(z), list, maxBlock) == s.(run := total, weight := w);
    }
  }

  lemma NoDigits()
    ensures RunDigits(0) == []
  {
  }

  lemma DigitsSplit(z: nat, d: int, rest: nat)
    requires z > 0 && d == (z - 1) % 2 && rest == if z - 1 < 2 then 0 else (z - 1 - 2) / 2 + 1
    ensures RunDigits(z) == [d] + RunDigits(rest)
  {
  }

  /** One digit of a run: what is left after it, at twice the weight, makes up the same length. */
  lemma RunDigit(run: nat, w: nat, z: nat, total: nat)
    requires run + w * z == total && w >= 1 && z >= 1
    ensures z - 1 >= 2 ==> run + ((z - 1) % 2 + 1) * w + (2 * w) * ((z - 1 - 2) / 2 + 1) == total
    ensures z - 1 < 2 ==> run + ((z - 1) % 2 + 1) * w == total
    ensures w <= total
  {
    MulAtLeast(w, z);
    if z - 1 >= 2 {
      var q, d := (z - 1 - 2) / 2 + 1, (z - 1) % 2 + 1;
      assert z == 2 * q + d;
      assert w * z == w * (2 * q) + w * d by { MulSplit(w, 2 * q, d); }
      assert w * (2 * q) == (2 * w) * q;
    }
  }

  lemma MulAtLeast(a: nat, c: nat)
    requires c >= 1
    ensures a * c >= a
  {
  }

  lemma MulSplit(a: int, c: int, d: int)
    ensures a * (c + d) == a * c + a * d
  {
  }

  lemma AfterRun(syms: seq<int>, list: seq<int>, maxBlock: nat, s: State, z: nat)
    requires Read(syms, list, maxBlock) == s && s.Going? && s.run == 0 && s.weight == 1 && z < MAX_WEIGHT
    requires s.list != [] && |s.out| + z <= maxBlock
    ensures Flush(Read(syms + RunDigits(z), list, maxBlock), maxBlock)
         == Going(s.out + Repeat(s.list[0], z), s.list, 0, 1)
  {
    ReadDigits(syms, list, maxBlock, s, z, z);
    var w: nat :| Read(syms + RunDigits(z), list, maxBlock) == s.(run := z, weight := w);
  }

  lemma SliceSnoc(col: seq<int>, k: nat)
    requires 1 <= k <= |col|
    ensures col[..k - 1] + [col[k - 1]] == col[..k]
  {
  }

  /** The last z of the first k entries all equal x. */
  ghost predicate EndsIn(col: seq<int>, k: nat, z: nat, x: int)
  {
    z <= k <= |col| && forall i :: k - z <= i < k ==> col[i] == x
  }

  lemma SliceRun(col: seq<int>, k: nat, z: nat, x: int)
    requires EndsIn(col, k, z, x)
    ensures col[..k - z] + Repeat(x, z) == col[..k]
  {
  }

  /** What the decoder has, once it has read what the encoder sent for the first k entries. */
  ghost predicate InStep(col: seq<int>, k: nat, list: seq<int>, maxBlock: nat)
    requires k <= |col|
  {
    var e := Encoded(col, k, list);
    && e.list != [] && EndsIn(col, k, e.pending, e.list[0])
    && Read(e.syms, list, maxBlock) == Going(col[..k - e.pending], e.list, 0, 1)
  }

  /** Closing a run of z and sending position j. */
  lemma AfterPosition(syms: seq<int>, list: seq<int>, maxBlock: nat, s: State, z: nat, j: nat)
    requires Read(syms, list, maxBlock) == s && s.Going? && s.run == 0 && s.weight == 1 && z < MAX_WEIGHT
    requires 1 <= j < |s.list| && |s.out| + z < maxBlock
    ensures Read(syms + RunDigits(z) + [j + 1], list, maxBlock)
         == Going(s.out + Repeat(s.list[0], z) + [s.list[j]], MoveToFront(s.list, j), 0, 1)
  {
    hide Read, MoveToFront, Repeat, RunDigits;
    AfterRun(syms, list, maxBlock, s, z);
    ReadSnoc(syms + RunDigits(z), j + 1, list, maxBlock);
  }

  lemma InStepBehind(col: seq<int>, k: nat, list: seq<int>, maxBlock: nat)
    requires 1 <= k <= |col| <= maxBlock && |col| < MAX_WEIGHT
    requires InStep(col, k - 1, list, maxBlock)
    requires var e := Encoded(col, k - 1, list); e.list[0] != col[k - 1] && IndexOf(e.list, col[k - 1]) < |e.list|
    ensures InStep(col, k, list, maxBlock)
  {
    hide Read, Step, Flush, MoveToFront, Repeat, RunDigits, IndexOf;
    var e, c := Encoded(col, k - 1, list), col[k - 1];
    var j := IndexOf(e.list, c);
    SliceRun(col, k - 1, e.pending, e.list[0]);
    SliceSnoc(col, k);
    var out := col[..k - 1 - e.pending];
    AfterPosition(e.syms, list, maxBlock, Going(out, e.list, 0, 1), e.pending, j);
  }

  lemma InStepSame(col: seq<int>, k: nat, list: seq<int>, maxBlock: nat)
    requires 1 <= k <= |col| && InStep(col, k - 1, list, maxBlock) && Encoded(col, k - 1, list).list[0] == col[k - 1]
    ensures InStep(col, k, list, maxBlock)
  {
    hide Read, MoveToFront, RunDigits, IndexOf;
    var e := Encoded(col, k - 1, list);
    assert k - (e.pending + 1) == k - 1 - e.pending;
  }

  lemma InStepStart(col: seq<int>, list: seq<int>, maxBlock: nat)
    requires list != []
    ensures InStep(col, 0, list, maxBlock)
  {
  }

  lemma InStepList(col: seq<int>, k: nat, list: seq<int>, maxBlock: nat)
    requires k <= |col| && InStep(col, k, list, maxBlock)
    ensures Encoded(col, k, list).list != []
  {
  }

  /** Having read what the encoder has sent, the decoder has its list, and the column but for the pending run. */
  lemma {:induction false} EncodedReads(col: seq<int>, k: nat, list: seq<int>, n: nat, maxBlock: nat)
    requires k <= |col| <= maxBlock && |col| < MAX_WEIGHT
    requires list != [] && Lists(list, n) && forall i :: 0 <= i < |col| ==> 0 <= col[i] < n
    ensures InStep(col, k, list, maxBlock)
  {
    hide Encoded, InStep, IndexOf, Lists;
    if k == 0 {
      InStepStart(col, list, maxBlock);
    } else {
      EncodedReads(col, k - 1, list, n, maxBlock);
      EncodedLists(col, k - 1, list, n);
      InStepList(col, k - 1, list, maxBlock);
      var e := Encoded(col, k - 1, list);
      if e.list[0] == col[k - 1] {
        InStepSame(col, k, list, maxBlock);
      } else {
        IndexOfMember(e.list, col[k - 1]);
        InStepBehind(col, k, list, maxBlock);
      }
    }
  }

  /** The column comes back from its symbols, for every column of numbers below n and every list that holds them. */
  lemma EncodeThenDecode(col: seq<int>, list: seq<int>, n: nat, maxBlock: nat)
    requires |col| <= maxBlock && |col| < MAX_WEIGHT
    requires list != [] && Lists(list, n) && forall i :: 0 <= i < |col| ==> 0 <= col[i] < n
    ensures Decoded(EncodedColumn(col, list), list, maxBlock) == Going(col, Encoded(col, |col|, list).list, 0, 1)
  {
    var e := Encoded(col, |col|, list);
    EncodedReads(col, |col|, list, n, maxBlock);
    AfterRun(e.syms, list, maxBlock, Going(col[..|col| - e.pending], e.list, 0, 1), e.pending);
    SliceRun(col, |col|, e.pending, e.list[0]);
    assert col[..|col|] == col;
  }

  /** A decoder whose list goes on past the encoder's reads the same. */
  lemma {:induction false} LongerList(syms: seq<int>, list: seq<int>, more: seq<int>, maxBlock: nat)
    requires list != []
    ensures var s, t := Read(syms, list, maxBlock), Read(syms, list + more, maxBlock);
            s.Going? ==> s.list != [] && t == s.(list := s.list + more)
  {
    if syms != [] {
      var k := |syms| - 1;
      LongerList(syms[..k], list, more, maxBlock);
      var s, x := Read(syms[..k], list, maxBlock), syms[k];
      if s.Going? && x != RUNA && x != RUNB && 0 <= x - 1 < |s.list| {
        assert MoveToFront(s.list + more, x - 1) == MoveToFront(s.list, x - 1) + more;
      }
    }
  }
}
